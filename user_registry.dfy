/**
 * The participant registry of the current server
 * (src/server/services/user.service.js): a singleton UserService holding a
 * `users` Map and a `nicknames` Set, which refuses a nickname that is
 * already reserved.
 */
module UserRegistry {
  import opened Values
  import opened UserTable

  const NicknameTaken: string := "Nickname already taken"
  const UseGetInstance: string := "Utilisez UserService.getInstance()"

  /** The service's state: the `users` Map and the `nicknames` Set. */
  datatype Registry = Registry(table: Table, nicknames: set<Value>)

  const Initial := Registry(UserTable.Empty, {})

  /** Every stored nickname is reserved, and no two stored users share a nickname. */
  ghost predicate Consistent(r: Registry)
  {
    && Wf(r.table)
    && (forall k :: k in r.table.users ==> r.table.users[k].nickname in r.nicknames)
    && (forall k, k' :: k in r.table.users && k' in r.table.users && k != k' ==>
          r.table.users[k].nickname != r.table.users[k'].nickname)
  }

  /** The reserved nicknames are exactly the stored ones. */
  ghost predicate Exact(r: Registry)
  {
    r.nicknames == set k | k in r.table.users :: r.table.users[k].nickname
  }

  /**
   * addUser(userId, ws, nickname): throws when the nickname is reserved;
   * otherwise sets the entry for `userId` and reserves the nickname.
   */
  function Added(r: Registry, userId: Value, ws: Value, nickname: Value): (c: Completion<Registry>)
    ensures c.Throw? <==> nickname in r.nicknames
    ensures c.Throw? ==> c.error == Error(NicknameTaken)
    ensures c.Normal? ==> userId in c.value.table.users && c.value.table.users[userId] == User(ws, nickname, Null, true)
    ensures c.Normal? ==> c.value.table.users.Keys == r.table.users.Keys + {userId}
    ensures c.Normal? ==> forall k :: k in r.table.users && k != userId ==> c.value.table.users[k] == r.table.users[k]
    ensures c.Normal? ==> c.value.nicknames == r.nicknames + {nickname}
    ensures c.Normal? && Consistent(r) ==> Consistent(c.value)
    ensures c.Normal? && Exact(r) && userId !in r.table.users ==> Exact(c.value)
  {
    if nickname in r.nicknames then Throw(Error(NicknameTaken))
    else
      var r' := Registry(Put(r.table, userId, Fresh(ws, nickname)), r.nicknames + {nickname});
      assert Exact(r) && userId !in r.table.users ==> Exact(r') by {
        if Exact(r) && userId !in r.table.users {
          ExactAfterPut(r, r', userId);
        }
      }
      Normal(r')
  }

  lemma ExactAfterPut(r: Registry, r': Registry, userId: Value)
    requires Exact(r) && userId !in r.table.users && userId in r'.table.users
    requires r'.table.users == r.table.users[userId := r'.table.users[userId]]
    requires r'.nicknames == r.nicknames + {r'.table.users[userId].nickname}
    ensures Exact(r')
  {
    var u, u' := r.table.users, r'.table.users;
    forall n | n in r'.nicknames
      ensures n in set k | k in u' :: u'[k].nickname
    {
      if n != u'[userId].nickname {
        var k :| k in u && u[k].nickname == n;
        assert k in u' && u'[k].nickname == n;
      }
    }
  }

  /** updatePosition(userId, position): changes that entry's position only, when there is one. */
  function Repositioned(r: Registry, userId: Value, position: Value): (r': Registry)
    ensures userId !in r.table.users ==> r' == r
    ensures r'.nicknames == r.nicknames && r'.table.order == r.table.order
    ensures r'.table.users.Keys == r.table.users.Keys
    ensures userId in r.table.users ==> r'.table.users[userId] == r.table.users[userId].(position := position)
    ensures forall k :: k in r.table.users && k != userId ==> r'.table.users[k] == r.table.users[k]
    ensures Consistent(r) ==> Consistent(r')
    ensures Exact(r) ==> Exact(r')
  {
    var r' := Registry(WithPosition(r.table, userId, position), r.nicknames);
    SameNicknames(r, r');
    r'
  }

  /** Replacing records without changing any nickname keeps both invariants. */
  lemma SameNicknames(r: Registry, r': Registry)
    requires r'.nicknames == r.nicknames && r'.table.order == r.table.order
    requires r'.table.users.Keys == r.table.users.Keys
    requires forall k :: k in r.table.users ==> r'.table.users[k].nickname == r.table.users[k].nickname
    ensures Consistent(r) ==> Consistent(r')
    ensures Exact(r) ==> Exact(r')
  {
    var u, u' := r.table.users, r'.table.users;
    assert (set k | k in u' :: u'[k].nickname) == (set k | k in u :: u[k].nickname);
  }

  /** removeUser(userId): deletes the entry and frees its nickname; nothing when it is absent. */
  function Removed(r: Registry, userId: Value): (r': Registry)
    ensures userId !in r.table.users && Wf(r.table) ==> r' == r
    ensures userId !in r'.table.users
    ensures r'.table.users.Keys == r.table.users.Keys - {userId}
    ensures forall k :: k in r'.table.users ==> r'.table.users[k] == r.table.users[k]
    ensures userId in r.table.users ==> r'.nicknames == r.nicknames - {r.table.users[userId].nickname}
    ensures Consistent(r) ==> Consistent(r')
    ensures Consistent(r) && Exact(r) ==> Exact(r')
  {
    if userId in r.table.users then
      var r' := Registry(Delete(r.table, userId), r.nicknames - {r.table.users[userId].nickname});
      assert Consistent(r) && Exact(r) ==> Exact(r') by {
        if Consistent(r) && Exact(r) {
          ExactAfterDelete(r, r', userId);
        }
      }
      r'
    else
      Registry(Delete(r.table, userId), r.nicknames)
  }

  lemma ExactAfterDelete(r: Registry, r': Registry, userId: Value)
    requires Consistent(r) && Exact(r) && userId in r.table.users
    requires r'.table.users == r.table.users - {userId}
    requires r'.nicknames == r.nicknames - {r.table.users[userId].nickname}
    ensures Exact(r')
  {
    var u, u' := r.table.users, r'.table.users;
    forall n | n in r'.nicknames
      ensures n in set k | k in u' :: u'[k].nickname
    {
      var k :| k in u && u[k].nickname == n;
      assert k != userId;
      assert k in u' && u'[k].nickname == n;
    }
  }

  /** removeUser is idempotent: removing the same id a second time changes nothing. */
  lemma RemoveIsIdempotent(r: Registry, userId: Value)
    requires Consistent(r)
    ensures Removed(Removed(r, userId), userId) == Removed(r, userId)
  {
  }

  /** One entry of getActiveUsers: `{id, nickname, position, connected}`. */
  function Summary(id: Value, u: User): (summary: Value)
  {
    Obj(map["id" := id, "nickname" := u.nickname, "position" := u.position, "connected" := Bool(u.connected)])
  }

  lemma SummaryFields(id: Value, u: User)
    ensures Summary(id, u).fields.Keys == {"id", "nickname", "position", "connected"}
    ensures Get(Summary(id, u), "id") == id
    ensures Get(Summary(id, u), "nickname") == u.nickname
    ensures Get(Summary(id, u), "position") == u.position
    ensures Get(Summary(id, u), "connected") == Bool(u.connected)
  {
  }

  /**
   * getActiveUsers(): one summary per entry, in the Map's order, carrying
   * the id and the record's fields except the connection.
   */
  function ActiveUsers(r: Registry): (s: seq<Value>)
    requires Wf(r.table)
    ensures |s| == |r.table.users| == |r.table.order|
    ensures forall i :: 0 <= i < |s| ==> s[i].Obj? && s[i].fields.Keys == {"id", "nickname", "position", "connected"}
    ensures forall i :: 0 <= i < |s| ==>
      && Get(s[i], "id") == r.table.order[i]
      && Get(s[i], "nickname") == r.table.users[r.table.order[i]].nickname
      && Get(s[i], "position") == r.table.users[r.table.order[i]].position
      && Get(s[i], "connected") == Bool(r.table.users[r.table.order[i]].connected)
    ensures forall i, j :: 0 <= i < j < |s| ==> Get(s[i], "id") != Get(s[j], "id")
  {
    var s := MapEntries(r.table, Summary);
    SummariesDescribe(r.table, s);
    s
  }

  /** Every registered user has a summary in getActiveUsers. */
  lemma EveryoneSummarized(r: Registry, userId: Value)
    requires Wf(r.table) && userId in r.table.users
    ensures exists i :: 0 <= i < |ActiveUsers(r)| && Get(ActiveUsers(r)[i], "id") == userId
  {
    var i :| 0 <= i < |r.table.order| && r.table.order[i] == userId;
    assert Get(ActiveUsers(r)[i], "id") == userId;
  }

  lemma SummariesDescribe(t: Table, s: seq<Value>)
    requires Wf(t) && s == MapEntries(t, Summary)
    ensures |s| == |t.users|
    ensures forall i :: 0 <= i < |s| ==> s[i].Obj? && s[i].fields.Keys == {"id", "nickname", "position", "connected"}
    ensures forall i :: 0 <= i < |s| ==> Get(s[i], "id") == t.order[i]
    ensures forall i :: 0 <= i < |s| ==>
      && Get(s[i], "nickname") == t.users[t.order[i]].nickname
      && Get(s[i], "position") == t.users[t.order[i]].position
      && Get(s[i], "connected") == Bool(t.users[t.order[i]].connected)
    ensures forall i, j :: 0 <= i < j < |s| ==> Get(s[i], "id") != Get(s[j], "id")
  {
    SizeIsOrderLength(t);
    forall i | 0 <= i < |s|
      ensures s[i].Obj? && s[i].fields.Keys == {"id", "nickname", "position", "connected"}
      ensures Get(s[i], "id") == t.order[i]
      ensures Get(s[i], "nickname") == t.users[t.order[i]].nickname
      ensures Get(s[i], "position") == t.users[t.order[i]].position
      ensures Get(s[i], "connected") == Bool(t.users[t.order[i]].connected)
    {
      SummaryFields(t.order[i], t.users[t.order[i]]);
    }
  }

  /** A coordinate pair, as the range check reads it. */
  datatype Coordinates = Coordinates(lat: real, lng: real)

  /** A registration with a fresh id grows the snapshot by one; removing a stored id shrinks it by one. */
  lemma {:induction false} SnapshotSize(r: Registry, userId: Value, ws: Value, nickname: Value)
    requires Consistent(r)
    ensures var c := Added(r, userId, ws, nickname);
      c.Normal? && userId !in r.table.users ==> |ActiveUsers(c.value)| == |ActiveUsers(r)| + 1
    ensures userId in r.table.users ==> |ActiveUsers(Removed(r, userId))| == |ActiveUsers(r)| - 1
  {
    var c := Added(r, userId, ws, nickname);
    if c.Normal? && userId !in r.table.users {
      assert c.value.table.users.Keys == r.table.users.Keys + {userId};
    }
    if userId in r.table.users {
      assert Removed(r, userId).table.users.Keys == r.table.users.Keys - {userId};
    }
  }

  /** Removing a user frees its nickname: the same nickname registers again, under any id. */
  lemma ReRegisterAfterRemove(r: Registry, userId: Value, newId: Value, ws: Value)
    requires Consistent(r) && userId in r.table.users
    ensures var n := r.table.users[userId].nickname;
      Added(Removed(r, userId), newId, ws, n).Normal?
  {
  }

  class UserService {
    var users: map<Value, User>
    var order: seq<Value>
    var nicknames: set<Value>

    function Model(): (r: Registry)
      reads this
    {
      Registry(Table(users, order), nicknames)
    }

    ghost predicate Valid()
      reads this
    {
      Consistent(Model())
    }

    constructor ()
      ensures Valid() && Model() == Initial && Exact(Model())
    {
      users, order, nicknames := map[], [], {};
    }

    method AddUser(userId: Value, ws: Value, nickname: Value) returns (c: Completion<Value>)
      requires Valid()
      modifies this
      ensures Valid()
      ensures Added(old(Model()), userId, ws, nickname).Throw? ==>
        c == Throw(Error(NicknameTaken)) && Model() == old(Model())
      ensures Added(old(Model()), userId, ws, nickname).Normal? ==>
        c == Normal(Undefined) && Model() == Added(old(Model()), userId, ws, nickname).value
    {
      if nickname in nicknames {
        return Throw(Error(NicknameTaken));
      }
      ghost var next := Added(Model(), userId, ws, nickname).value;
      users := users[userId := Fresh(ws, nickname)];
      order := if userId in order then order else order + [userId];
      nicknames := nicknames + {nickname};
      assert Model() == next;
      c := Normal(Undefined);
    }

    method UpdatePosition(userId: Value, position: Value)
      requires Valid()
      modifies this
      ensures Valid()
      ensures Model() == Repositioned(old(Model()), userId, position)
    {
      if userId in users {
        users := users[userId := users[userId].(position := position)];
      }
    }

    method RemoveUser(userId: Value)
      requires Valid()
      modifies this
      ensures Valid()
      ensures Model() == Removed(old(Model()), userId)
    {
      if userId in users {
        nicknames := nicknames - {users[userId].nickname};
        users := users - {userId};
        order := Erase(order, userId);
      }
    }

    function GetActiveUsers(): (summaries: seq<Value>)
      reads this
      requires Valid()
    {
      ActiveUsers(Model())
    }

    /** validatePosition: the latitude and longitude ranges, checked without touching the registry. */
    function ValidatePosition(position: Coordinates): (ok: bool)
      ensures ok <==> -90.0 <= position.lat <= 90.0 && -180.0 <= position.lng <= 180.0
    {
      position.lat >= -90.0 && position.lat <= 90.0 && position.lng >= -180.0 && position.lng <= 180.0
    }
  }

  /** The UserService class object, holding its private static `#instance`. */
  class UserServiceClass {
    var instance: UserService?

    constructor ()
      ensures instance == null
    {
      instance := null;
    }

    /** `new UserService()`: refused once an instance exists. */
    method New() returns (c: Completion<UserService>)
      modifies this
      ensures old(instance) != null ==> c == Throw(Error(UseGetInstance)) && instance == old(instance)
      ensures old(instance) == null ==>
        c.Normal? && fresh(c.value) && c.value.Valid() && c.value.Model() == Initial && instance == c.value
    {
      if instance != null {
        return Throw(Error(UseGetInstance));
      }
      var s := new UserService();
      instance := s;
      c := Normal(s);
    }

    /** UserService.getInstance(): creates the instance on the first call and returns it on every call. */
    method GetInstance() returns (s: UserService)
      modifies this
      ensures instance == s
      ensures old(instance) != null ==> s == old(instance)
      ensures old(instance) == null ==> fresh(s) && s.Valid() && s.Model() == Initial
    {
      if instance == null {
        var c := New();
        s := c.value;
      } else {
        s := instance;
      }
    }
  }
}
