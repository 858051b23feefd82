/**
 * The first server generation's WebsocketController
 * (src/controllers/websocket.controller.js): registration takes the id the
 * client sends, every change is followed by the user list, and a closed
 * connection's participant is removed. It has no liveness probe.
 */
module LegacyRelay {
  import opened Values
  import opened UserTable
  import opened Sockets
  import opened LegacyRegistry
  import opened Protocol

  /** One entry of broadcastUserList: `{id, nickname, position, connected}`, read from a summary. */
  function UserListEntry(user: Value): (entry: Value)
  {
    Obj(map["id" := Get(user, "id"), "nickname" := Get(user, "nickname"),
            "position" := Get(user, "position"), "connected" := Get(user, "connected")])
  }

  /** The `users` payload of broadcastUserList: each summary's id, nickname, position and connected flag, and nothing else. */
  function UserList(summaries: seq<Value>): (r: seq<Value>)
    ensures |r| == |summaries|
    ensures forall i :: 0 <= i < |r| ==> Get(r[i], "id") == Get(summaries[i], "id") && Get(r[i], "ws") == Undefined
    ensures forall i :: 0 <= i < |r| ==>
      && Get(r[i], "nickname") == Get(summaries[i], "nickname")
      && Get(r[i], "position") == Get(summaries[i], "position")
      && Get(r[i], "connected") == Get(summaries[i], "connected")
  {
    var r := seq(|summaries|, i requires 0 <= i < |summaries| => UserListEntry(summaries[i]));
    assert forall i :: 0 <= i < |r| ==> Get(r[i], "ws") == Undefined by {
      forall i | 0 <= i < |r| ensures Get(r[i], "ws") == Undefined {
        EntryFields(summaries[i]);
      }
    }
    r
  }

  /** The user-list message for registry `t`. */
  function Payload(t: Table): (message: Value)
    requires Wf(t)
  {
    UserUpdateMessage(UserList(ActiveUsers(t)))
  }

  lemma EntryFields(summary: Value)
    ensures UserListEntry(summary).fields.Keys == {"id", "nickname", "position", "connected"}
    ensures Get(UserListEntry(summary), "id") == Get(summary, "id")
    ensures Get(UserListEntry(summary), "ws") == Undefined
  {
  }

  /** The user list's `i`-th entry names the Map's `i`-th key and carries no connection. */
  lemma UserListInOrder(t: Table)
    requires Wf(t)
    ensures var list := UserList(ActiveUsers(t));
      && |list| == |t.order|
      && forall i :: 0 <= i < |list| ==> Get(list[i], "id") == t.order[i] && Get(list[i], "ws") == Undefined
  {
  }

  /**
   * The user list names every participant once by the id it registered
   * with, and never carries the connection stored beside it.
   */
  lemma {:induction false} UserListNamesEveryone(t: Table)
    requires Wf(t)
    ensures var list := UserList(ActiveUsers(t));
      && |list| == |t.users|
      && (forall i :: 0 <= i < |list| ==> Get(list[i], "ws") == Undefined)
      && (forall k :: k in t.users ==> exists i :: 0 <= i < |list| && Get(list[i], "id") == k)
      && (forall i, j :: 0 <= i < j < |list| ==> Get(list[i], "id") != Get(list[j], "id"))
  {
    UserListInOrder(t);
    KeysListedOnce(t, UserList(ActiveUsers(t)));
  }

  /** A list whose `i`-th entry has the Map's `i`-th key as its id names every key, once. */
  lemma KeysListedOnce(t: Table, list: seq<Value>)
    requires Wf(t) && |list| == |t.order|
    requires forall i :: 0 <= i < |list| ==> Get(list[i], "id") == t.order[i]
    ensures forall k :: k in t.users ==> exists i :: 0 <= i < |list| && Get(list[i], "id") == k
    ensures forall i, j :: 0 <= i < j < |list| ==> Get(list[i], "id") != Get(list[j], "id")
  {
    forall k | k in t.users
      ensures exists i :: 0 <= i < |list| && Get(list[i], "id") == k
    {
      var i :| 0 <= i < |t.order| && t.order[i] == k;
      assert Get(list[i], "id") == k;
    }
  }

  /** What handleMessage does with a frame. */
  datatype Route = Ignored | Register(userId: Value, nickname: Value) | Reposition(userId: Value, position: Value)

  /** A `switch` on `data.type`: only `register` and `positionUpdate` do anything; nothing is checked for presence. */
  function Classify(frame: Frame): (r: Route)
    ensures r.Register? <==> frame.Parsed? && frame.data != Null && Get(frame.data, "type") == Str("register")
    ensures r.Reposition? <==> frame.Parsed? && frame.data != Null && Get(frame.data, "type") == Str("positionUpdate")
    ensures r.Register? ==> r.userId == Get(frame.data, "userId") && r.nickname == Get(frame.data, "nickname")
    ensures r.Reposition? ==> r.userId == Get(frame.data, "userId") && r.position == Get(frame.data, "position")
  {
    if frame.Unparsable? || frame.data == Undefined || frame.data == Null then Ignored
    else
      var kind := Get(frame.data, "type");
      if kind == Str("register") then Register(Get(frame.data, "userId"), Get(frame.data, "nickname"))
      else if kind == Str("positionUpdate") then Reposition(Get(frame.data, "userId"), Get(frame.data, "position"))
      else Ignored
  }

  /**
   * After a registration from a connection that held no entry, the closing
   * of that connection finds the id it registered with, whether that id was
   * new or overwrote another participant's entry.
   */
  lemma {:induction false} DisconnectFindsRegisteredId(t: Table, c: ConnId, userId: Value, nickname: Value)
    requires Wf(t)
    requires forall k :: k in t.users ==> t.users[k].ws != Conn(c)
    ensures UserIdByWs(Put(t, userId, Fresh(Conn(c), nickname)), Conn(c)) == userId
  {
    var t' := Put(t, userId, Fresh(Conn(c), nickname));
    var i := FirstWithWs(t'.users, t'.order, Conn(c));
    assert forall j :: 0 <= j < |t'.order| && t'.order[j] != userId ==> t'.users[t'.order[j]].ws != Conn(c);
    assert userId in t'.order;
    var n :| 0 <= n < |t'.order| && t'.order[n] == userId;
    assert t'.users[t'.order[n]].ws == Conn(c);
  }

  /**
   * A participant registered under a falsy id (none sent, or "") is found
   * under that falsy id when its connection closes, so its entry is kept.
   */
  lemma FalsyIdOutlivesConnection(t: Table, c: ConnId, userId: Value, nickname: Value)
    requires Wf(t) && !Truthy(userId)
    requires forall k :: k in t.users ==> t.users[k].ws != Conn(c)
    ensures var t' := Put(t, userId, Fresh(Conn(c), nickname));
      !Truthy(UserIdByWs(t', Conn(c))) && userId in t'.users
  {
    DisconnectFindsRegisteredId(t, c, userId, nickname);
  }

  class WebsocketController {
    const wss: SocketServer
    const userService: UserService

    ghost predicate Valid()
      reads wss, userService
    {
      wss.Valid() && userService.Valid()
    }

    /** The controller creates its own empty registry. */
    constructor (wss: SocketServer)
      requires wss.Valid()
      ensures Valid() && this.wss == wss && fresh(userService)
      ensures userService.Model() == UserTable.Empty
    {
      this.wss := wss;
      userService := new UserService();
    }

    /** A `connection` event: the socket joins the server's clients. */
    method Connect(c: ConnId)
      requires Valid() && c !in wss.readyState
      modifies wss
      ensures Valid()
      ensures wss.clients == old(wss.clients) + {c}
      ensures wss.readyState == old(wss.readyState)[c := Open]
      ensures wss.outbox == old(wss.outbox)[c := []]
    {
      wss.Accept(c);
    }

    /** handleMessage: `register` stores the record and broadcasts, `positionUpdate` moves it and broadcasts; errors are caught. */
    method HandleMessage(ws: ConnId, frame: Frame)
      requires Valid() && ws in wss.readyState
      modifies wss`outbox, userService
      ensures Valid()
      ensures Classify(frame).Ignored? ==>
        userService.Model() == old(userService.Model()) && wss.outbox == old(wss.outbox)
      ensures Classify(frame).Register? ==>
        && userService.Model() == Put(old(userService.Model()), Classify(frame).userId, Fresh(Conn(ws), Classify(frame).nickname))
        && wss.outbox == Fanout(old(wss.outbox), wss.clients, wss.readyState, Payload(userService.Model()))
      ensures Classify(frame).Reposition? ==>
        && userService.Model() == WithPosition(old(userService.Model()), Classify(frame).userId, Classify(frame).position)
        && wss.outbox == Fanout(old(wss.outbox), wss.clients, wss.readyState, Payload(userService.Model()))
    {
      if frame.Unparsable? {
        return;
      }
      var data := frame.data;
      var kind := Prop(data, "type");
      if kind.Throw? {
        return;
      }
      if kind.value == Str("register") {
        userService.AddUser(Get(data, "userId"), Conn(ws), Get(data, "nickname"));
        BroadcastUserList();
      } else if kind.value == Str("positionUpdate") {
        userService.UpdatePosition(Get(data, "userId"), Get(data, "position"));
        BroadcastUserList();
      }
    }

    /** broadcastUserList: the user list sent to every OPEN client. */
    method BroadcastUserList()
      requires Valid()
      modifies wss`outbox
      ensures Valid()
      ensures wss.outbox == Fanout(old(wss.outbox), wss.clients, wss.readyState, Payload(userService.Model()))
    {
      var users := UserList(userService.GetActiveUsers());
      wss.Broadcast(UserUpdateMessage(users));
    }

    /** findUserIdByWs: the first key, in the Map's order, whose record holds `ws`; null when none does. */
    method FindUserIdByWs(ws: ConnId) returns (userId: Value)
      requires Valid()
      ensures userId == UserIdByWs(userService.Model(), Conn(ws))
    {
      var users, order := userService.users, userService.order;
      var i := 0;
      while i < |order|
        invariant 0 <= i <= |order|
        invariant forall j :: 0 <= j < i ==> users[order[j]].ws != Conn(ws)
      {
        if users[order[i]].ws == Conn(ws) {
          return order[i];
        }
        i := i + 1;
      }
      return Null;
    }

    /**
     * The state after handleDisconnect for `ws`: when a truthy id is found
     * for it, that entry is deleted and the user list goes out; otherwise nothing.
     */
    ghost predicate Disconnected(t: Table, outbox: Outboxes, ws: ConnId)
      reads wss, userService
      requires wss.Valid() && Wf(t)
    {
      var userId := UserIdByWs(t, Conn(ws));
      && (Truthy(userId) ==>
            && userService.Model() == Delete(t, userId)
            && wss.outbox == Fanout(outbox, wss.clients, wss.readyState, Payload(userService.Model())))
      && (!Truthy(userId) ==> userService.Model() == t && wss.outbox == outbox)
    }

    method HandleDisconnect(ws: ConnId)
      requires Valid()
      modifies wss`outbox, userService
      ensures Valid()
      ensures Disconnected(old(userService.Model()), old(wss.outbox), ws)
    {
      var userId := FindUserIdByWs(ws);
      if Truthy(userId) {
        userService.RemoveUser(userId);
        BroadcastUserList();
      }
    }

    /** A `close` event: the socket leaves `clients`, then handleDisconnect runs. */
    method Disconnect(c: ConnId)
      requires Valid() && c in wss.readyState
      modifies wss, userService
      ensures Valid()
      ensures wss.readyState == old(wss.readyState)[c := Closed] && wss.clients == old(wss.clients) - {c}
      ensures Disconnected(old(userService.Model()), old(wss.outbox), c)
    {
      wss.Close(c);
      HandleDisconnect(c);
    }
  }
}
