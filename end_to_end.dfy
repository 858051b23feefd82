/**
 * What the browser client makes of the current server's messages: the
 * registration reply and the user list, as the server writes them and as
 * it evidently intends them.
 */
module EndToEnd {
  import opened Values
  import opened UserTable
  import opened UserRegistry
  import opened Protocol
  import opened Relay
  import opened SignalClient

  /** As written, the reply to a registration carries no id, so the client's id becomes undefined. */
  lemma AsWrittenReplyLeavesClientAnonymous(userId: Value)
    ensures Receive(userId, Parsed(RegisteredMessage(Undefined))).userId == Undefined
  {
    var m := RegisteredMessage(Undefined);
    assert Get(m, "type") == Str("registered") && Get(m, "userId") == Undefined;
  }

  /**
   * As written, the registry's keys are connections, so the position update
   * of a client whose id is undefined changes nothing.
   */
  lemma AsWrittenPositionNeverStored(r: Registry, position: Value)
    requires Consistent(r) && AsWritten(r)
    ensures Repositioned(r, Undefined, position) == r
  {
  }

  /** As written, every marker the client asks for from the user list is under an undefined id. */
  lemma {:induction false} AsWrittenMarkersAnonymous(r: Registry)
    requires Wf(r.table)
    ensures forall m :: m in MarkersFor(UserList(ActiveUsers(r))) ==> m.userId == Undefined
  {
    var list := UserList(ActiveUsers(r));
    UserListLosesIds(r);
    MarkersComeFromPositionedUsers(list);
  }

  /**
   * As intended, the client asks for a marker for exactly the registered
   * participants that have a position, each under its id and position.
   */
  lemma {:induction false} IntendedMarkersNameParticipants(r: Registry)
    requires Wf(r.table)
    ensures forall m :: m in MarkersFor(IntendedUserList(ActiveUsers(r))) ==>
      m.userId in r.table.users && Truthy(m.position) && m.position == r.table.users[m.userId].position
  {
    var list := IntendedUserList(ActiveUsers(r));
    IntendedIdsInOrder(r);
    MarkersComeFromPositionedUsers(list);
  }

  lemma {:induction false} IntendedMarksEveryPositionedParticipant(r: Registry)
    requires Wf(r.table)
    ensures forall k :: k in r.table.users && Truthy(r.table.users[k].position) ==>
      Marker(k, r.table.users[k].position) in MarkersFor(IntendedUserList(ActiveUsers(r)))
  {
    IntendedIdsInOrder(r);
    PositionedKeysMarked(r.table, IntendedUserList(ActiveUsers(r)));
  }

  /** A list whose `i`-th entry is an object naming the Map's `i`-th key and its position marks every positioned key. */
  lemma PositionedKeysMarked(t: Table, list: seq<Value>)
    requires Wf(t) && |list| == |t.order|
    requires forall i :: 0 <= i < |list| ==>
      list[i].Obj? && Get(list[i], "userId") == t.order[i] && Get(list[i], "position") == t.users[t.order[i]].position
    ensures forall k :: k in t.users && Truthy(t.users[k].position) ==> Marker(k, t.users[k].position) in MarkersFor(list)
  {
    EveryPositionedUserMarked(list);
    forall k | k in t.users && Truthy(t.users[k].position)
      ensures Marker(k, t.users[k].position) in MarkersFor(list)
    {
      var i :| 0 <= i < |t.order| && t.order[i] == k;
      assert Get(list[i], "userId") == k;
    }
  }
}
