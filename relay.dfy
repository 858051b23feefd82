/**
 * The current server's WebsocketController
 * (src/server/controllers/websocket.controller.js): it routes parsed
 * frames to the registry, broadcasts the participant list, removes the
 * participant of a closed connection, and keeps a ping/pong liveness flag
 * per connection. The registration call and the user-list payload are
 * modelled as the code writes them; the corrected forms sit at the end.
 */
module Relay {
  import opened Values
  import opened UserTable
  import opened Sockets
  import opened UserRegistry
  import opened Protocol

  // ----- The user list -----

  /** One entry of broadcastUserList as written: it reads `user.userId`, which a summary does not have. */
  function UserListEntry(user: Value): (entry: Value)
  {
    Obj(map["userId" := Get(user, "userId"), "nickname" := Get(user, "nickname"),
            "position" := Get(user, "position"), "connected" := Get(user, "connected")])
  }

  /** The `users` payload of broadcastUserList, as written. */
  function UserList(summaries: seq<Value>): (r: seq<Value>)
    ensures |r| == |summaries|
    ensures forall i :: 0 <= i < |r| ==> Get(r[i], "userId") == Get(summaries[i], "userId")
    ensures forall i :: 0 <= i < |r| ==>
      && Get(r[i], "nickname") == Get(summaries[i], "nickname")
      && Get(r[i], "position") == Get(summaries[i], "position")
      && Get(r[i], "connected") == Get(summaries[i], "connected")
  {
    seq(|summaries|, i requires 0 <= i < |summaries| => UserListEntry(summaries[i]))
  }

  /** The state of the broadcast list, as written: the whole registry, read through getActiveUsers. */
  function Payload(r: Registry): (message: Value)
    requires Wf(r.table)
  {
    UserUpdateMessage(UserList(ActiveUsers(r)))
  }

  // ----- Dispatch -----

  /** What handleMessage does with a frame, before it changes anything. */
  datatype Route = Ignored | Register(nickname: Value) | Reposition(userId: Value, position: Value)

  /**
   * Unparsable frames, `null`, frames without a truthy `type`, `register`
   * without a truthy `nickname` and every other type are ignored.
   */
  function Classify(frame: Frame): (r: Route)
    ensures r.Register? ==> frame.Parsed? && Get(frame.data, "type") == Str("register") && Truthy(r.nickname)
    ensures r.Register? ==> r.nickname == Get(frame.data, "nickname")
    ensures r.Reposition? ==> frame.Parsed? && Get(frame.data, "type") == Str("positionUpdate")
    ensures r.Reposition? ==> r.userId == Get(frame.data, "userId") && r.position == Get(frame.data, "position")
    ensures frame.Parsed? && Get(frame.data, "type") in {Str("offer"), Str("answer"), Str("iceCandidate")} ==> r == Ignored
    ensures frame.Parsed? && Get(frame.data, "type") == Str("positionUpdate") && frame.data != Null ==> r.Reposition?
    ensures frame.Parsed? && frame.data != Null && Get(frame.data, "type") == Str("register") && Truthy(Get(frame.data, "nickname")) ==>
      r == Route.Register(Get(frame.data, "nickname"))
  {
    if frame.Unparsable? || frame.data == Undefined || frame.data == Null then Ignored
    else
      var kind := Get(frame.data, "type");
      if !Truthy(kind) then Ignored
      else if kind == Str("register") then
        var nickname := Get(frame.data, "nickname");
        if Truthy(nickname) then Register(nickname) else Ignored
      else if kind == Str("positionUpdate") then
        Reposition(Get(frame.data, "userId"), Get(frame.data, "position"))
      else Ignored
  }

  /** The client's registration request is routed to `register` exactly when its nickname is truthy. */
  lemma RegisterRequestRouted(nickname: Value)
    ensures Classify(Parsed(RegisterRequest(nickname))) == if Truthy(nickname) then Route.Register(nickname) else Ignored
  {
    var m := RegisterRequest(nickname);
    assert Get(m, "type") == Str("register") && Get(m, "nickname") == nickname;
  }

  /** The client's position update is routed to `positionUpdate` with the id and the position it carries. */
  lemma PositionUpdateRouted(userId: Value, position: Value)
    ensures Classify(Parsed(PositionUpdateMessage(userId, position))) == Reposition(userId, position)
  {
    var m := PositionUpdateMessage(userId, position);
    assert Get(m, "type") == Str("positionUpdate") && Get(m, "userId") == userId && Get(m, "position") == position;
  }

  // ----- Liveness -----

  /** The `isAlive` flag of a connection and whether its ping interval is still set. */
  datatype Liveness = Liveness(alive: bool, armed: bool)

  datatype HeartbeatEvent = Tick | Pong | Close

  datatype HeartbeatAction = Idle | Probe | Terminate

  /** setupPingPong: a pong revives, a tick terminates a silent connection or probes a live one, a close clears the interval. */
  function Heartbeat(l: Liveness, e: HeartbeatEvent): (step: (Liveness, HeartbeatAction))
    ensures step.1 == Terminate <==> e == Tick && l.armed && !l.alive
    ensures step.1 == Probe <==> e == Tick && l.armed && l.alive
    ensures step.0.armed == (l.armed && e != Close)
    ensures step.0.alive == if e == Pong then true else if step.1 == Probe then false else l.alive
  {
    match e
    case Pong => (l.(alive := true), Idle)
    case Close => (l.(armed := false), Idle)
    case Tick =>
      if !l.armed then (l, Idle)
      else if !l.alive then (l, Terminate)
      else (l.(alive := false), Probe)
  }

  /** The liveness at the end of a run of events, and the action taken at each one. */
  function Run(l: Liveness, events: seq<HeartbeatEvent>): (r: (Liveness, seq<HeartbeatAction>))
    ensures |r.1| == |events|
    decreases |events|
  {
    if events == [] then (l, [])
    else
      var before := Run(l, events[..|events| - 1]);
      var step := Heartbeat(before.0, events[|events| - 1]);
      (step.0, before.1 + [step.1])
  }

  lemma RunPrefix(l: Liveness, events: seq<HeartbeatEvent>, n: nat)
    requires n <= |events|
    ensures Run(l, events[..n]).1 == Run(l, events).1[..n]
    decreases |events|
  {
    if n < |events| {
      assert events[..|events| - 1][..n] == events[..n];
      RunPrefix(l, events[..|events| - 1], n);
    } else {
      assert events[..n] == events;
    }
  }

  /**
   * A connection that sends no pong is terminated at every tick after the
   * first, as long as its interval is set.
   */
  lemma {:induction false} SilentConnectionTerminated(l: Liveness, events: seq<HeartbeatEvent>)
    requires l.armed && |events| >= 2
    requires forall i :: 0 <= i < |events| ==> events[i] == Tick
    ensures forall i :: 1 <= i < |events| ==> Run(l, events).1[i] == Terminate
    ensures !Run(l, events).0.alive && Run(l, events).0.armed
    decreases |events|
  {
    var n := |events|;
    var front := events[..n - 1];
    if n == 2 {
      assert front == [Tick] && front[..0] == [];
      assert Run(l, front[..0]) == (l, []);
      var first := Run(l, front);
      assert first.0 == (if l.alive then l.(alive := false) else l);
    } else {
      SilentConnectionTerminated(l, front);
      var r := Run(l, events);
      forall i | 1 <= i < n
        ensures r.1[i] == Terminate
      {
        if i < n - 1 {
          assert r.1[i] == Run(l, front).1[i];
        }
      }
    }
  }

  /** Once the interval is cleared, no later event pings or terminates. */
  lemma {:induction false} ClosedStaysQuiet(l: Liveness, events: seq<HeartbeatEvent>)
    requires !l.armed
    ensures forall i :: 0 <= i < |events| ==> Run(l, events).1[i] == Idle
    ensures !Run(l, events).0.armed
    decreases |events|
  {
    if events != [] {
      ClosedStaysQuiet(l, events[..|events| - 1]);
    }
  }

  /**
   * Starting alive, a connection is terminated only after a probe that got no
   * pong: some earlier tick pinged it and no pong arrived since.
   */
  lemma {:induction false} TerminatedOnlyAfterUnansweredProbe(events: seq<HeartbeatEvent>)
    ensures var r := Run(Liveness(true, true), events);
      forall i :: 0 <= i < |events| && r.1[i] == Terminate ==>
        exists j :: 0 <= j < i && r.1[j] == Probe && forall m :: j < m < i ==> events[m] != Pong
  {
    UnansweredSinceProbe(events);
    var r := Run(Liveness(true, true), events);
    forall i | 0 <= i < |events| && r.1[i] == Terminate
      ensures exists j :: 0 <= j < i && r.1[j] == Probe && forall m :: j < m < i ==> events[m] != Pong
    {
      var front := events[..i];
      UnansweredSinceProbe(front);
      RunPrefix(Liveness(true, true), events, i + 1);
      RunPrefix(Liveness(true, true), events, i);
      assert events[..i + 1][..i] == front;
      var before := Run(Liveness(true, true), front);
      assert Run(Liveness(true, true), events[..i + 1]).1 == before.1 + [Heartbeat(before.0, events[i]).1];
      assert !before.0.alive;
      var j :| 0 <= j < i && before.1[j] == Probe && forall m :: j < m < i ==> front[m] != Pong;
      assert r.1[j] == Probe;
      assert forall m :: j < m < i ==> events[m] == front[m];
    }
  }

  /** The flag is down only while the last probe is unanswered. */
  lemma {:induction false} UnansweredSinceProbe(events: seq<HeartbeatEvent>)
    ensures var r := Run(Liveness(true, true), events);
      !r.0.alive ==> exists j :: 0 <= j < |events| && r.1[j] == Probe && forall m :: j < m < |events| ==> events[m] != Pong
    decreases |events|
  {
    if events != [] {
      var n := |events|;
      var front := events[..n - 1];
      UnansweredSinceProbe(front);
      var before := Run(Liveness(true, true), front);
      var r := Run(Liveness(true, true), events);
      assert r.1 == before.1 + [Heartbeat(before.0, events[n - 1]).1];
      if !r.0.alive {
        if Heartbeat(before.0, events[n - 1]).1 == Probe {
          assert r.1[n - 1] == Probe;
        } else {
          assert events[n - 1] != Pong && !before.0.alive;
          var j :| 0 <= j < n - 1 && before.1[j] == Probe && forall m :: j < m < n - 1 ==> front[m] != Pong;
          assert r.1[j] == Probe;
          assert forall m :: j < m < n ==> events[m] != Pong;
        }
      }
    }
  }

  // ----- Fan-out orders -----

  /**
   * After a registration, the sender receives the `registered` reply and then
   * the user list; every other OPEN client receives the user list only.
   */
  lemma RegisterReplyThenList(outbox: Outboxes, clients: set<ConnId>, readyState: map<ConnId, ReadyState>,
                              sender: ConnId, reply: Value, list: Value, c: ConnId)
    requires clients <= readyState.Keys && sender in outbox && sender in readyState && c in outbox
    requires sender in clients && readyState[sender] == Open
    ensures var r := Fanout(Delivered(outbox, readyState, sender, Data(reply)), clients, readyState, list);
      && (c == sender ==> r[c] == outbox[c] + [Data(reply), Data(list)])
      && (c != sender && c in clients && readyState[c] == Open ==> r[c] == outbox[c] + [Data(list)])
      && (!(c in clients && readyState[c] == Open) ==> r[c] == outbox[c])
  {
    var d := Delivered(outbox, readyState, sender, Data(reply));
    assert d[sender] == outbox[sender] + [Data(reply)];
    assert outbox[sender] + [Data(reply)] + [Data(list)] == outbox[sender] + [Data(reply), Data(list)];
  }

  /** After a position update, every OPEN client receives the position message and then the user list. */
  lemma PositionThenList(outbox: Outboxes, clients: set<ConnId>, readyState: map<ConnId, ReadyState>,
                         position: Value, list: Value, c: ConnId)
    requires clients <= readyState.Keys && c in outbox
    ensures var r := Fanout(Fanout(outbox, clients, readyState, position), clients, readyState, list);
      && (c in clients && readyState[c] == Open ==> r[c] == outbox[c] + [Data(position), Data(list)])
      && (!(c in clients && readyState[c] == Open) ==> r[c] == outbox[c])
  {
    var once := Fanout(outbox, clients, readyState, position);
    if c in clients && readyState[c] == Open {
      assert once[c] == outbox[c] + [Data(position)];
      assert outbox[c] + [Data(position)] + [Data(list)] == outbox[c] + [Data(position), Data(list)];
    }
  }

  // ----- The registration as written -----

  /**
   * The state the code as written reaches: every entry is keyed by a
   * connection, holds the client's nickname in `ws` and has an undefined
   * nickname.
   */
  ghost predicate AsWritten(r: Registry)
  {
    forall k :: k in r.table.users ==>
      k.Conn? && !r.table.users[k].ws.Conn? && r.table.users[k].nickname == Undefined
  }

  /** A registration as written keeps every entry keyed by a connection and holding no connection. */
  lemma AsWrittenAfterRegistration(r: Registry, c: ConnId, nickname: Value)
    requires AsWritten(r) && !nickname.Conn?
    ensures var added := Added(r, Conn(c), nickname, Undefined);
      added.Normal? ==> AsWritten(added.value)
  {
  }

  /** Every registration reserves `undefined`, so the registry never holds more than one participant. */
  lemma AtMostOneParticipant(r: Registry)
    requires Consistent(r) && AsWritten(r)
    ensures |r.table.users| <= 1
  {
    if r.table.users != map[] {
      var k :| k in r.table.users;
      assert r.table.users.Keys == {k};
    }
  }

  /** Once one participant is registered, every later registration throws. */
  lemma LaterRegistrationsThrow(r: Registry, c: ConnId, nickname: Value)
    requires Consistent(r) && AsWritten(r) && r.table.users != map[]
    ensures Added(r, Conn(c), nickname, Undefined).Throw?
  {
    var k :| k in r.table.users;
    assert r.table.users[k].nickname in r.nicknames;
  }

  /** No entry holds a connection, so a closed connection's participant is never found. */
  lemma DisconnectFindsNobody(r: Registry, c: ConnId)
    requires Consistent(r) && AsWritten(r)
    ensures UserIdByWs(r.table, Conn(c)) == Null
  {
    NoHandleNotFound(r.table, c);
  }

  /** In the user list as written, no entry carries its participant's id. */
  lemma UserListLosesIds(r: Registry)
    requires Wf(r.table)
    ensures var list := UserList(ActiveUsers(r));
      && |list| == |r.table.users|
      && forall i :: 0 <= i < |list| ==> Get(list[i], "userId") == Undefined
  {
    var s := ActiveUsers(r);
    forall i | 0 <= i < |s|
      ensures Get(s[i], "userId") == Undefined
    {
      SummaryHasNoUserId(s[i]);
    }
  }

  lemma SummaryHasNoUserId(summary: Value)
    requires summary.Obj? && summary.fields.Keys == {"id", "nickname", "position", "connected"}
    ensures Get(summary, "userId") == Undefined
  {
  }

  // ----- The registration and the user list as evidently intended -----

  /** addUser(userId, ws, nickname) with a server-generated `userId`, returned to the client in the reply. */
  function RegisterIntended(r: Registry, c: ConnId, userId: Value, nickname: Value): (res: Completion<(Registry, Value)>)
    ensures res.Throw? <==> nickname in r.nicknames
    ensures res.Normal? ==> res.value.1 == RegisteredMessage(userId)
    ensures res.Normal? ==> Added(r, userId, Conn(c), nickname) == Normal(res.value.0)
  {
    match Added(r, userId, Conn(c), nickname)
    case Throw(e) => Throw(e)
    case Normal(r') => Normal((r', RegisteredMessage(userId)))
  }

  /**
   * With a fresh id, a connection that holds no entry yet is registered under
   * that id and is found again by its connection when it closes.
   */
  lemma {:induction false} IntendedDisconnectFindsUser(r: Registry, c: ConnId, userId: Value, nickname: Value)
    requires Consistent(r) && userId !in r.table.users && nickname !in r.nicknames
    requires forall k :: k in r.table.users ==> r.table.users[k].ws != Conn(c)
    ensures var res := RegisterIntended(r, c, userId, nickname);
      res.Normal? && UserIdByWs(res.value.0.table, Conn(c)) == userId
  {
    var r' := RegisterIntended(r, c, userId, nickname).value.0;
    var n := |r.table.order|;
    assert r'.table.order == r.table.order + [userId];
    assert forall j :: 0 <= j < n ==> r'.table.order[j] == r.table.order[j] && r'.table.order[j] in r.table.users;
    assert forall j :: 0 <= j < n ==> r'.table.users[r'.table.order[j]].ws != Conn(c);
    assert r'.table.users[r'.table.order[n]].ws == Conn(c);
  }

  /** Two connections with different nicknames both register, where the code as written accepts only the first. */
  lemma IntendedAcceptsSecondParticipant(r: Registry, c1: ConnId, id1: Value, n1: Value, c2: ConnId, id2: Value, n2: Value)
    requires Consistent(r) && n1 !in r.nicknames && n2 !in r.nicknames && n1 != n2
    ensures var first := RegisterIntended(r, c1, id1, n1);
      && first.Normal?
      && RegisterIntended(first.value.0, c2, id2, n2).Normal?
  {
  }

  /** One entry of broadcastUserList as evidently intended: `userId: user.id`. */
  function IntendedUserListEntry(user: Value): (entry: Value)
  {
    Obj(map["userId" := Get(user, "id"), "nickname" := Get(user, "nickname"),
            "position" := Get(user, "position"), "connected" := Get(user, "connected")])
  }

  /** The intended `users` payload: each summary's `id` under `userId`, with its nickname, position and connected flag. */
  function IntendedUserList(summaries: seq<Value>): (r: seq<Value>)
    ensures |r| == |summaries|
    ensures forall i :: 0 <= i < |r| ==> r[i].Obj? && Get(r[i], "userId") == Get(summaries[i], "id")
    ensures forall i :: 0 <= i < |r| ==>
      && Get(r[i], "nickname") == Get(summaries[i], "nickname")
      && Get(r[i], "position") == Get(summaries[i], "position")
      && Get(r[i], "connected") == Get(summaries[i], "connected")
  {
    var r := seq(|summaries|, i requires 0 <= i < |summaries| => IntendedUserListEntry(summaries[i]));
    assert forall i :: 0 <= i < |r| ==> Get(r[i], "userId") == Get(summaries[i], "id") by {
      forall i | 0 <= i < |r| ensures Get(r[i], "userId") == Get(summaries[i], "id") {
        IntendedEntryFields(summaries[i]);
      }
    }
    r
  }

  /** The intended user list names every registered participant, by its id, once each. */
  lemma {:induction false} IntendedUserListCarriesIds(r: Registry)
    requires Wf(r.table)
    ensures var list := IntendedUserList(ActiveUsers(r));
      && |list| == |r.table.users|
      && (forall i :: 0 <= i < |list| ==> Get(list[i], "userId") in r.table.users)
      && (forall k :: k in r.table.users ==> exists i :: 0 <= i < |list| && Get(list[i], "userId") == k)
      && (forall i, j :: 0 <= i < j < |list| ==> Get(list[i], "userId") != Get(list[j], "userId"))
  {
    IntendedIdsInOrder(r);
  }

  /** The intended list's `i`-th entry names the Map's `i`-th key and carries that participant's position. */
  lemma IntendedIdsInOrder(r: Registry)
    requires Wf(r.table)
    ensures var list := IntendedUserList(ActiveUsers(r));
      forall i :: 0 <= i < |list| ==>
        && list[i].Obj?
        && Get(list[i], "userId") == r.table.order[i]
        && Get(list[i], "position") == r.table.users[r.table.order[i]].position
  {
  }

  lemma IntendedEntryFields(summary: Value)
    ensures Get(IntendedUserListEntry(summary), "userId") == Get(summary, "id")
  {
  }

  // ----- The controller -----

  class WebsocketController {
    const wss: SocketServer
    const userService: UserService
    /** `ws.isAlive` of every accepted connection. */
    var isAlive: map<ConnId, bool>
    /** The connections whose ping interval is still set. */
    var armed: set<ConnId>

    ghost predicate Valid()
      reads this, wss, userService
    {
      && wss.Valid()
      && userService.Valid()
      && isAlive.Keys == wss.readyState.Keys
      && armed <= wss.readyState.Keys
    }

    function LivenessOf(c: ConnId): (l: Liveness)
      reads this
      requires c in isAlive
    {
      Liveness(isAlive[c], c in armed)
    }

    /** The controller is built over a server that has no connection yet. */
    constructor (wss: SocketServer, userService: UserService)
      requires wss.Valid() && wss.readyState == map[] && userService.Valid()
      ensures Valid() && this.wss == wss && this.userService == userService
      ensures isAlive == map[] && armed == {}
    {
      this.wss := wss;
      this.userService := userService;
      isAlive := map[];
      armed := {};
    }

    /** A `connection` event: handleConnection, then setupPingPong. */
    method Connect(c: ConnId)
      requires Valid() && c !in wss.readyState
      modifies this, wss
      ensures Valid()
      ensures wss.clients == old(wss.clients) + {c}
      ensures wss.readyState == old(wss.readyState)[c := Open]
      ensures wss.outbox == old(wss.outbox)[c := []]
      ensures isAlive == old(isAlive)[c := true] && armed == old(armed) + {c}
      ensures userService.Model() == old(userService.Model())
    {
      wss.Accept(c);
      isAlive := isAlive[c := true];
      armed := armed + {c};
    }

    /** handleMessage: dispatch on a parsed frame; every exception is caught. */
    method HandleMessage(ws: ConnId, frame: Frame)
      requires Valid() && ws in wss.readyState
      requires frame.Parsed? ==> IsJson(frame.data)
      modifies wss`outbox, userService
      ensures Valid()
      ensures Classify(frame).Ignored? ==>
        userService.Model() == old(userService.Model()) && wss.outbox == old(wss.outbox)
      ensures Classify(frame).Register? ==>
        Registered(old(userService.Model()), old(wss.outbox), ws, Classify(frame).nickname)
      ensures Classify(frame).Reposition? ==>
        PositionBroadcast(old(userService.Model()), old(wss.outbox), Classify(frame).userId, Classify(frame).position)
      ensures AsWritten(old(userService.Model())) ==> AsWritten(userService.Model())
    {
      if frame.Unparsable? {
        return;
      }
      var data := frame.data;
      var kind := Prop(data, "type");
      if kind.Throw? {
        return;
      }
      if !Truthy(kind.value) {
        return;
      }
      if kind.value == Str("register") {
        var nickname := Get(data, "nickname");
        if !Truthy(nickname) {
          return;
        }
        assert Classify(frame) == Route.Register(nickname);
        JsonFieldIsNoConnection(data, "nickname");
        Register(ws, nickname);
      } else if kind.value == Str("positionUpdate") {
        assert Classify(frame) == Reposition(Get(data, "userId"), Get(data, "position"));
        PositionUpdate(Get(data, "userId"), Get(data, "position"));
      } else {
        assert Classify(frame) == Ignored;
      }
    }

    /**
     * The state after the `register` case for `nickname` on `ws`: when the
     * registry refuses, nothing; otherwise the entry is stored, the reply goes
     * to `ws` and the user list to every OPEN client.
     */
    ghost predicate Registered(registry: Registry, outbox: Outboxes, ws: ConnId, nickname: Value)
      reads this, wss, userService
      requires wss.Valid() && ws in outbox && ws in wss.readyState && Consistent(registry)
    {
      var added := Added(registry, Conn(ws), nickname, Undefined);
      && (added.Throw? ==> userService.Model() == registry && wss.outbox == outbox)
      && (added.Normal? ==>
            && userService.Model() == added.value
            && wss.outbox == Fanout(Delivered(outbox, wss.readyState, ws, Data(RegisteredMessage(Undefined))),
                                    wss.clients, wss.readyState, Payload(added.value)))
    }

    /** The state after the `positionUpdate` case: the position is stored, then both broadcasts go out. */
    ghost predicate PositionBroadcast(registry: Registry, outbox: Outboxes, userId: Value, position: Value)
      reads this, wss, userService
      requires wss.Valid() && Consistent(registry)
    {
      var moved := Repositioned(registry, userId, position);
      && userService.Model() == moved
      && wss.outbox == Fanout(Fanout(outbox, wss.clients, wss.readyState, PositionUpdateMessage(userId, position)),
                              wss.clients, wss.readyState, Payload(moved))
    }

    /** The `register` case, as written: addUser(ws, data.nickname) against addUser(userId, ws, nickname). */
    method Register(ws: ConnId, nickname: Value)
      requires Valid() && ws in wss.readyState
      modifies wss`outbox, userService
      ensures Valid()
      ensures Registered(old(userService.Model()), old(wss.outbox), ws, nickname)
      ensures AsWritten(old(userService.Model())) && !nickname.Conn? ==> AsWritten(userService.Model())
    {
      // The connection becomes the key, the nickname is stored as `ws`, and the nickname is undefined.
      ghost var before := userService.Model();
      var added := userService.AddUser(Conn(ws), nickname, Undefined);
      if added.Throw? {
        return;
      }
      if AsWritten(before) && !nickname.Conn? {
        AsWrittenAfterRegistration(before, ws, nickname);
      }
      // addUser returns nothing, so the reply's userId is undefined.
      var userId := added.value;
      wss.Send(ws, RegisteredMessage(userId));
      BroadcastUserList();
    }

    /** The `positionUpdate` case. */
    method PositionUpdate(userId: Value, position: Value)
      requires Valid()
      modifies wss`outbox, userService
      ensures Valid()
      ensures PositionBroadcast(old(userService.Model()), old(wss.outbox), userId, position)
      ensures AsWritten(old(userService.Model())) ==> AsWritten(userService.Model())
    {
      userService.UpdatePosition(userId, position);
      wss.Broadcast(PositionUpdateMessage(userId, position));
      BroadcastUserList();
    }

    /** broadcastUserList: the user list built from getActiveUsers, sent to every OPEN client. */
    method BroadcastUserList()
      requires Valid()
      modifies wss`outbox
      ensures Valid()
      ensures wss.outbox == Fanout(old(wss.outbox), wss.clients, wss.readyState, Payload(userService.Model()))
    {
      var users := UserList(userService.GetActiveUsers());
      wss.Broadcast(UserUpdateMessage(users));
    }

    /** findUserIdByWs: the first key, in the Map's order, whose record holds `ws`; null when none does. */
    method FindUserIdByWs(ws: ConnId) returns (userId: Value)
      requires Valid()
      ensures userId == UserIdByWs(userService.Model().table, Conn(ws))
    {
      var users, order := userService.users, userService.order;
      var i := 0;
      while i < |order|
        invariant 0 <= i <= |order|
        invariant forall j :: 0 <= j < i ==> users[order[j]].ws != Conn(ws)
      {
        if users[order[i]].ws == Conn(ws) {
          return order[i];
        }
        i := i + 1;
      }
      return Null;
    }

    /**
     * The state after handleDisconnect for `ws`: when a truthy id is found
     * for it, that participant is removed and the user list goes to every
     * OPEN client; otherwise nothing.
     */
    ghost predicate Disconnected(registry: Registry, outbox: Outboxes, ws: ConnId)
      reads wss, userService
      requires wss.Valid() && Consistent(registry)
    {
      var userId := UserIdByWs(registry.table, Conn(ws));
      && (Truthy(userId) ==>
            && userService.Model() == Removed(registry, userId)
            && wss.outbox == Fanout(outbox, wss.clients, wss.readyState, Payload(userService.Model())))
      && (!Truthy(userId) ==> userService.Model() == registry && wss.outbox == outbox)
    }

    /** handleDisconnect: remove the participant found for `ws` and broadcast, when one is found. */
    method HandleDisconnect(ws: ConnId)
      requires Valid()
      modifies wss`outbox, userService
      ensures Valid()
      ensures Disconnected(old(userService.Model()), old(wss.outbox), ws)
    {
      var userId := FindUserIdByWs(ws);
      if Truthy(userId) {
        userService.RemoveUser(userId);
        BroadcastUserList();
      }
    }

    /** A `close` event: the socket leaves `clients`, then handleDisconnect runs and the interval is cleared. */
    method Disconnect(c: ConnId)
      requires Valid() && c in wss.readyState
      modifies wss, userService, this`armed
      ensures Valid()
      ensures wss.readyState == old(wss.readyState)[c := Closed] && wss.clients == old(wss.clients) - {c}
      ensures armed == old(armed) - {c} && isAlive == old(isAlive)
      ensures Disconnected(old(userService.Model()), old(wss.outbox), c)
      ensures AsWritten(old(userService.Model())) ==>
        userService.Model() == old(userService.Model()) && wss.outbox == old(wss.outbox)
    {
      ghost var before := userService.Model();
      if AsWritten(before) {
        DisconnectFindsNobody(before, c);
      }
      wss.Close(c);
      HandleDisconnect(c);
      armed := armed - {c};
    }

    /** An interval tick on connection `c`. */
    method Tick(c: ConnId)
      requires Valid() && c in wss.readyState
      modifies this`isAlive, wss`outbox, wss`readyState
      ensures Valid()
      ensures var step := Heartbeat(old(LivenessOf(c)), HeartbeatEvent.Tick);
        && isAlive == old(isAlive)[c := step.0.alive]
        && LivenessOf(c) == step.0
        && (step.1 == Idle ==> wss.readyState == old(wss.readyState) && wss.outbox == old(wss.outbox))
        && (step.1 == Probe ==> wss.readyState == old(wss.readyState) && wss.outbox == Delivered(old(wss.outbox), wss.readyState, c, Ping))
        && (step.1 == Terminate ==>
              && wss.readyState == old(wss.readyState)[c := if old(wss.readyState[c]) == Closed then Closed else Closing]
              && wss.outbox == old(wss.outbox))
      ensures wss.clients == old(wss.clients)
    {
      if c !in armed {
        return;
      }
      if !isAlive[c] {
        wss.Terminate(c);
        return;
      }
      isAlive := isAlive[c := false];
      wss.SendPing(c);
    }

    /** A `pong` event on connection `c`. */
    method Pong(c: ConnId)
      requires Valid() && c in wss.readyState
      modifies this`isAlive
      ensures Valid()
      ensures LivenessOf(c) == Heartbeat(old(LivenessOf(c)), HeartbeatEvent.Pong).0
      ensures isAlive == old(isAlive)[c := true]
    {
      isAlive := isAlive[c := true];
    }
  }
}
