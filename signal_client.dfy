/**
 * The browser side of the relay protocol
 * (src/client/public/js/core/websocket.client.js): the client's id, set by
 * the server's `registered` reply, the guarded sends, and the marker
 * updates it asks the map manager for.
 */
module SignalClient {
  import opened Values
  import opened Sockets
  import opened Protocol

  /** A call `updateUserMarker(userId, position)` on the map manager. */
  datatype Marker = Marker(userId: Value, position: Value)

  /** `this.ws`: no socket before connect, then one WebSocket and its ready state. */
  datatype Socket = NoSocket | Socket(readyState: ReadyState)

  /** The marker update the `userUpdate` loop asks for on one listed user that is not null or undefined. */
  function MarkerFor(user: Value): (markers: seq<Marker>)
  {
    if Truthy(Get(user, "position")) then [Marker(Get(user, "userId"), Get(user, "position"))] else []
  }

  /**
   * The marker updates `users.forEach` asks for: one per user with a truthy
   * position, in list order, up to the first null or undefined element, on
   * which reading `user.position` throws and ends the loop.
   */
  function MarkersFor(users: seq<Value>): (markers: seq<Marker>)
    ensures |markers| <= |users|
    decreases |users|
  {
    if users == [] then []
    else if users[0] == Null || users[0] == Undefined then []
    else MarkerFor(users[0]) + MarkersFor(users[1..])
  }

  /** A single listed user that is not null or undefined yields one marker update when its position is truthy, and none otherwise. */
  lemma MarkersOfOne(user: Value)
    requires user != Null && user != Undefined
    ensures MarkersFor([user]) ==
      if Truthy(Get(user, "position")) then [Marker(Get(user, "userId"), Get(user, "position"))] else []
  {
    assert [user][1..] == [];
  }

  /** Past a prefix with no null or undefined user, the marker updates of a list are those of the prefix followed by those of the rest. */
  lemma {:induction false} MarkersAppend(a: seq<Value>, b: seq<Value>)
    requires forall i :: 0 <= i < |a| ==> a[i] != Null && a[i] != Undefined
    ensures MarkersFor(a + b) == MarkersFor(a) + MarkersFor(b)
    decreases |a|
  {
    if a == [] {
      assert a + b == b;
    } else {
      assert (a + b)[0] == a[0];
      assert (a + b)[1..] == a[1..] + b;
      assert forall i :: 0 <= i < |a[1..]| ==> a[1..][i] == a[i + 1];
      MarkersAppend(a[1..], b);
    }
  }

  /** A null or undefined user ends the loop: nothing after it is marked. */
  lemma MarkersStopAtMissingUser(a: seq<Value>, user: Value, b: seq<Value>)
    requires forall i :: 0 <= i < |a| ==> a[i] != Null && a[i] != Undefined
    requires user == Null || user == Undefined
    ensures MarkersFor(a + [user] + b) == MarkersFor(a)
  {
    assert a + [user] + b == a + ([user] + b);
    MarkersAppend(a, [user] + b);
    assert MarkersFor([user] + b) == [];
  }

  /** Every marker update comes from a listed user with a truthy position, and carries that user's id and position. */
  lemma {:induction false} MarkersComeFromPositionedUsers(users: seq<Value>)
    ensures forall m :: m in MarkersFor(users) ==>
      exists i :: 0 <= i < |users| && m == Marker(Get(users[i], "userId"), Get(users[i], "position"))
                  && Truthy(Get(users[i], "position"))
    decreases |users|
  {
    if users != [] && users[0] != Null && users[0] != Undefined {
      MarkersComeFromPositionedUsers(users[1..]);
      forall m | m in MarkersFor(users)
        ensures exists i :: 0 <= i < |users| && m == Marker(Get(users[i], "userId"), Get(users[i], "position"))
                            && Truthy(Get(users[i], "position"))
      {
        if m in MarkerFor(users[0]) {
          assert m == Marker(Get(users[0], "userId"), Get(users[0], "position"));
        } else {
          assert m in MarkersFor(users[1..]);
          var i :| 0 <= i < |users[1..]| && m == Marker(Get(users[1..][i], "userId"), Get(users[1..][i], "position"))
                   && Truthy(Get(users[1..][i], "position"));
          assert users[1..][i] == users[i + 1];
        }
      }
    }
  }

  /** When no listed user is null or undefined, every user with a truthy position gets its marker update. */
  lemma {:induction false} EveryPositionedUserMarked(users: seq<Value>)
    requires forall i :: 0 <= i < |users| ==> users[i] != Null && users[i] != Undefined
    ensures forall i :: 0 <= i < |users| && Truthy(Get(users[i], "position")) ==>
      Marker(Get(users[i], "userId"), Get(users[i], "position")) in MarkersFor(users)
    decreases |users|
  {
    if users != [] {
      EveryPositionedUserMarked(users[1..]);
      forall i | 0 <= i < |users| && Truthy(Get(users[i], "position"))
        ensures Marker(Get(users[i], "userId"), Get(users[i], "position")) in MarkersFor(users)
      {
        if i > 0 {
          assert users[1..][i - 1] == users[i];
        }
      }
    }
  }

  /** When no listed user has a truthy position, no marker update is asked for. */
  lemma {:induction false} UnpositionedUsersUnmarked(users: seq<Value>)
    requires forall i :: 0 <= i < |users| ==> !Truthy(Get(users[i], "position"))
    ensures MarkersFor(users) == []
    decreases |users|
  {
    if users != [] {
      assert forall i :: 0 <= i < |users[1..]| ==> users[1..][i] == users[i + 1];
      UnpositionedUsersUnmarked(users[1..]);
    }
  }

  /** What a frame from the server does: the client's id afterwards and the marker updates asked for. */
  datatype Reception = Reception(userId: Value, markers: seq<Marker>)

  /**
   * handleMessage on the client. Only `registered` changes the id; a
   * `positionUpdate` moves one marker unless it carries the client's own
   * id; `userUpdate` asks for the markers of its list.
   */
  function Receive(userId: Value, frame: Frame): (r: Reception)
    ensures r.userId != userId ==>
      frame.Parsed? && Get(frame.data, "type") == Str("registered") && r.userId == Get(frame.data, "userId")
    ensures frame.Parsed? && frame.data != Null && Get(frame.data, "type") == Str("registered") ==>
      r == Reception(Get(frame.data, "userId"), [])
    ensures frame.Parsed? && frame.data != Null && Get(frame.data, "type") == Str("positionUpdate") ==>
      && r.userId == userId
      && (Get(frame.data, "userId") == userId ==> r.markers == [])
      && (Get(frame.data, "userId") != userId ==>
            r.markers == [Marker(Get(frame.data, "userId"), Get(frame.data, "position"))])
    ensures frame.Parsed? && frame.data != Null && Get(frame.data, "type") == Str("userUpdate") ==>
      r.userId == userId && r.markers == if Get(frame.data, "users").Arr? then MarkersFor(Get(frame.data, "users").items) else []
    ensures frame.Unparsable? || frame.data == Null ==> r == Reception(userId, [])
    ensures frame.Parsed? && Get(frame.data, "type") !in {Str("registered"), Str("positionUpdate"), Str("userUpdate")} ==>
      r == Reception(userId, [])
  {
    if frame.Unparsable? || frame.data == Undefined || frame.data == Null then Reception(userId, [])
    else
      var message := frame.data;
      var kind := Get(message, "type");
      if kind == Str("registered") then Reception(Get(message, "userId"), [])
      else if kind == Str("userUpdate") then
        var users := Get(message, "users");
        // forEach exists on arrays only; on anything else the call throws before any marker.
        Reception(userId, if users.Arr? then MarkersFor(users.items) else [])
      else if kind == Str("positionUpdate") then
        Reception(userId, if Get(message, "userId") != userId then [Marker(Get(message, "userId"), Get(message, "position"))] else [])
      else Reception(userId, [])
  }

  /** `send(message)`: transmitted when the socket is OPEN, dropped otherwise. */
  function Transmitted(sent: seq<Value>, socket: Socket, message: Value): (r: seq<Value>)
    ensures socket == Socket(Open) ==> r == sent + [message]
    ensures socket != Socket(Open) ==> r == sent
  {
    if socket == Socket(Open) then sent + [message] else sent
  }

  class WebsocketClient {
    /** The id the server gave this client; null until then. */
    var userId: Value
    var nickname: Value
    /** `this.ws`. */
    var socket: Socket
    /** The messages transmitted to the server, in order. */
    var sent: seq<Value>
    /** The marker updates asked of the map manager, in order. */
    var markers: seq<Marker>

    constructor ()
      ensures userId == Null && nickname == Null && socket == NoSocket && sent == [] && markers == []
    {
      userId, nickname, socket, sent, markers := Null, Null, NoSocket, [], [];
    }

    /**
     * setNickname: the answer to the prompt (a string, or null when it is
     * cancelled), or `User_` and the random suffix when that is falsy.
     */
    method SetNickname(answer: Value, random: string)
      modifies this`nickname
      ensures Truthy(answer) ==> nickname == answer
      ensures !Truthy(answer) ==> nickname == Str("User_" + random)
    {
      if Truthy(answer) {
        nickname := answer;
      } else {
        nickname := Str("User_" + random);
      }
    }

    /** connect: the nickname is chosen, then a socket is opened and is CONNECTING. */
    method Connect(answer: Value, random: string)
      modifies this`nickname, this`socket
      ensures nickname == if Truthy(answer) then answer else Str("User_" + random)
      ensures socket == Socket(Connecting)
    {
      SetNickname(answer, random);
      socket := Socket(Connecting);
    }

    /** send: the guarded transmission. */
    method Send(message: Value)
      modifies this`sent
      ensures sent == Transmitted(old(sent), socket, message)
    {
      if socket.Socket? && socket.readyState == Open {
        sent := sent + [message];
      }
    }

    /** registerUser: `{type: 'register', nickname}`. */
    method RegisterUser()
      modifies this`sent
      ensures sent == Transmitted(old(sent), socket, RegisterRequest(nickname))
    {
      Send(RegisterRequest(nickname));
    }

    /** sendPosition: `{type: 'positionUpdate', userId, position}` with the current id, null or not. */
    method SendPosition(position: Value)
      modifies this`sent
      ensures sent == Transmitted(old(sent), socket, PositionUpdateMessage(userId, position))
    {
      Send(PositionUpdateMessage(userId, position));
    }

    /** The `open` event: the socket is OPEN and the registration goes out. */
    method Opened()
      requires socket.Socket?
      modifies this`socket, this`sent
      ensures socket == Socket(Open)
      ensures sent == old(sent) + [RegisterRequest(nickname)]
    {
      socket := Socket(Open);
      RegisterUser();
    }

    /** The `close` event: the socket is CLOSED; handleDisconnect only logs. */
    method Closed()
      requires socket.Socket?
      modifies this`socket
      ensures socket == Socket(ReadyState.Closed)
    {
      socket := Socket(ReadyState.Closed);
    }

    /** handleMessage for one frame from the server; every exception is caught. */
    method HandleMessage(frame: Frame)
      modifies this`userId, this`markers
      ensures userId == Receive(old(userId), frame).userId
      ensures markers == old(markers) + Receive(old(userId), frame).markers
    {
      if frame.Unparsable? {
        return;
      }
      var message := frame.data;
      var kind := Prop(message, "type");
      if kind.Throw? {
        return;
      }
      if kind.value == Str("registered") {
        userId := Get(message, "userId");
      } else if kind.value == Str("userUpdate") {
        var users := Get(message, "users");
        if users.Arr? {
          UpdateMarkers(users.items);
        }
      } else if kind.value == Str("positionUpdate") {
        if Get(message, "userId") != userId {
          markers := markers + [Marker(Get(message, "userId"), Get(message, "position"))];
        }
      }
    }

    /** The `users.forEach` loop of `userUpdate`. */
    method UpdateMarkers(users: seq<Value>)
      modifies this`markers
      ensures markers == old(markers) + MarkersFor(users)
    {
      var i := 0;
      while i < |users|
        invariant 0 <= i <= |users|
        invariant old(markers) + MarkersFor(users) == markers + MarkersFor(users[i..])
      {
        var user := users[i];
        assert users[i..][1..] == users[i + 1..];
        if user == Null || user == Undefined {
          // `user.position` throws: the loop ends here.
          return;
        }
        if Truthy(Get(user, "position")) {
          markers := markers + [Marker(Get(user, "userId"), Get(user, "position"))];
        }
        i := i + 1;
      }
    }
  }
}
