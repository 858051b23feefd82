/**
 * The participant registry of the first server generation
 * (src/services/user.service.js): a plain `users` Map, no nickname
 * reservation, and summaries that carry the whole stored record.
 */
module LegacyRegistry {
  import opened Values
  import opened UserTable

  /** One entry of getActiveUsers: `{id, ...record}`, the connection included. */
  function Summary(id: Value, u: User): (summary: Value)
  {
    Obj(map["id" := id, "ws" := u.ws, "nickname" := u.nickname, "position" := u.position, "connected" := Bool(u.connected)])
  }

  lemma SummaryFields(id: Value, u: User)
    ensures Summary(id, u).fields.Keys == {"id", "ws", "nickname", "position", "connected"}
    ensures Get(Summary(id, u), "id") == id
    ensures Get(Summary(id, u), "ws") == u.ws
    ensures Get(Summary(id, u), "nickname") == u.nickname
    ensures Get(Summary(id, u), "position") == u.position
    ensures Get(Summary(id, u), "connected") == Bool(u.connected)
  {
  }

  /** getActiveUsers(): one summary per entry, in the Map's order, with the id and every stored field. */
  function ActiveUsers(t: Table): (s: seq<Value>)
    requires Wf(t)
    ensures |s| == |t.users| == |t.order|
    ensures forall i :: 0 <= i < |s| ==> s[i].Obj? && s[i].fields.Keys == {"id", "ws", "nickname", "position", "connected"}
    ensures forall i :: 0 <= i < |s| ==>
      && Get(s[i], "id") == t.order[i]
      && Get(s[i], "ws") == t.users[t.order[i]].ws
      && Get(s[i], "nickname") == t.users[t.order[i]].nickname
      && Get(s[i], "position") == t.users[t.order[i]].position
      && Get(s[i], "connected") == Bool(t.users[t.order[i]].connected)
    ensures forall i, j :: 0 <= i < j < |s| ==> Get(s[i], "id") != Get(s[j], "id")
  {
    var s := MapEntries(t, Summary);
    SummariesDescribe(t, s);
    s
  }

  lemma SummariesDescribe(t: Table, s: seq<Value>)
    requires Wf(t) && s == MapEntries(t, Summary)
    ensures |s| == |t.users|
    ensures forall i :: 0 <= i < |s| ==> s[i].Obj? && s[i].fields.Keys == {"id", "ws", "nickname", "position", "connected"}
    ensures forall i :: 0 <= i < |s| ==> Get(s[i], "id") == t.order[i]
    ensures forall i :: 0 <= i < |s| ==>
      && Get(s[i], "ws") == t.users[t.order[i]].ws
      && Get(s[i], "nickname") == t.users[t.order[i]].nickname
      && Get(s[i], "position") == t.users[t.order[i]].position
      && Get(s[i], "connected") == Bool(t.users[t.order[i]].connected)
    ensures forall i, j :: 0 <= i < j < |s| ==> Get(s[i], "id") != Get(s[j], "id")
  {
    SizeIsOrderLength(t);
    forall i | 0 <= i < |s|
      ensures s[i].Obj? && s[i].fields.Keys == {"id", "ws", "nickname", "position", "connected"}
      ensures Get(s[i], "id") == t.order[i]
      ensures Get(s[i], "ws") == t.users[t.order[i]].ws
      ensures Get(s[i], "nickname") == t.users[t.order[i]].nickname
      ensures Get(s[i], "position") == t.users[t.order[i]].position
      ensures Get(s[i], "connected") == Bool(t.users[t.order[i]].connected)
    {
      SummaryFields(t.order[i], t.users[t.order[i]]);
    }
  }

  /** removeUser deletes exactly that key, so removing it again changes nothing. */
  lemma RemoveIsIdempotent(t: Table, userId: Value)
    requires Wf(t)
    ensures Delete(Delete(t, userId), userId) == Delete(t, userId)
  {
  }

  class UserService {
    var users: map<Value, User>
    var order: seq<Value>

    function Model(): (t: Table)
      reads this
    {
      Table(users, order)
    }

    ghost predicate Valid()
      reads this
    {
      Wf(Model())
    }

    constructor ()
      ensures Valid() && Model() == UserTable.Empty
    {
      users, order := map[], [];
    }

    /** addUser always succeeds and overwrites any entry for `userId`. */
    method AddUser(userId: Value, ws: Value, nickname: Value)
      requires Valid()
      modifies this
      ensures Valid()
      ensures Model() == Put(old(Model()), userId, Fresh(ws, nickname))
    {
      users := users[userId := Fresh(ws, nickname)];
      order := if userId in order then order else order + [userId];
    }

    method UpdatePosition(userId: Value, position: Value)
      requires Valid()
      modifies this
      ensures Valid()
      ensures Model() == WithPosition(old(Model()), userId, position)
    {
      if userId in users {
        users := users[userId := users[userId].(position := position)];
      }
    }

    method RemoveUser(userId: Value)
      requires Valid()
      modifies this
      ensures Valid()
      ensures Model() == Delete(old(Model()), userId)
    {
      users := users - {userId};
      order := Erase(order, userId);
    }

    function GetActiveUsers(): (summaries: seq<Value>)
      reads this
      requires Valid()
    {
      ActiveUsers(Model())
    }
  }
}
