/**
 * The `users` Map of both user services: a JavaScript Map from user ids to
 * user records. A Map iterates in insertion order, and setting an existing
 * key keeps its place, so the table keeps that order beside the entries.
 */
module UserTable {
  import opened Values

  /** A stored user record `{ws, nickname, position, connected}` (the timestamp is not modelled). */
  datatype User = User(ws: Value, nickname: Value, position: Value, connected: bool)

  /** The record addUser stores: no position yet, and connected. */
  function Fresh(ws: Value, nickname: Value): (u: User)
  {
    User(ws, nickname, Null, true)
  }

  /** The Map's entries and the order in which it iterates over their keys. */
  datatype Table = Table(users: map<Value, User>, order: seq<Value>)

  const Empty := Table(map[], [])

  predicate Distinct<K(==)>(s: seq<K>)
  {
    forall i, j :: 0 <= i < j < |s| ==> s[i] != s[j]
  }

  /** `order` lists every key of `users` exactly once. */
  ghost predicate Wf(t: Table)
  {
    && Distinct(t.order)
    && (forall k :: k in t.order ==> k in t.users)
    && (forall k :: k in t.users ==> k in t.order)
  }

  /** `s` without `k`, the other elements kept in their order. */
  function Erase(s: seq<Value>, k: Value): (r: seq<Value>)
    ensures forall x :: x in r <==> x in s && x != k
    ensures Distinct(s) ==> Distinct(r)
    ensures k !in s ==> r == s
    ensures |r| <= |s|
  {
    if s == [] then []
    else if s[0] == k then (DistinctTail(s); Erase(s[1..], k))
    else (DistinctTail(s); DistinctCons(s[0], Erase(s[1..], k)); [s[0]] + Erase(s[1..], k))
  }

  /** Erasing a key that occurs once cuts it out at its index: the elements before and after it keep their order. */
  lemma {:induction false} EraseKeepsOrder(s: seq<Value>, k: Value)
    requires Distinct(s) && k in s
    ensures exists i :: 0 <= i < |s| && s[i] == k && Erase(s, k) == s[..i] + s[i + 1..]
    decreases |s|
  {
    DistinctTail(s);
    if s[0] == k {
      assert Erase(s, k) == s[..0] + s[1..];
    } else {
      EraseKeepsOrder(s[1..], k);
      OrderAfterCons(s, k, Erase(s[1..], k));
    }
  }

  /** Cutting `k` out of the tail at some index cuts it out of the whole sequence one index later. */
  lemma OrderAfterCons(s: seq<Value>, k: Value, tail: seq<Value>)
    requires s != [] && s[0] != k
    requires exists j :: 0 <= j < |s[1..]| && s[1..][j] == k && tail == s[1..][..j] + s[1..][j + 1..]
    ensures exists i :: 0 <= i < |s| && s[i] == k && [s[0]] + tail == s[..i] + s[i + 1..]
  {
    var j :| 0 <= j < |s[1..]| && s[1..][j] == k && tail == s[1..][..j] + s[1..][j + 1..];
    assert s[j + 1] == k;
    assert [s[0]] + tail == s[..j + 1] + s[j + 2..];
  }

  lemma DistinctTail(s: seq<Value>)
    requires s != []
    ensures Distinct(s) ==> s[0] !in s[1..] && Distinct(s[1..])
  {
    if Distinct(s) {
      forall j | 0 <= j < |s| - 1
        ensures s[1..][j] != s[0]
      {
        assert s[1..][j] == s[j + 1];
      }
    }
  }

  lemma DistinctCons(x: Value, r: seq<Value>)
    ensures x !in r && Distinct(r) ==> Distinct([x] + r)
  {
  }

  /** `map.set(k, u)`: a new key goes last, an existing key keeps its place and gets the new record. */
  function Put(t: Table, k: Value, u: User): (r: Table)
    ensures r.users.Keys == t.users.Keys + {k}
    ensures k in r.users && r.users[k] == u
    ensures forall x :: x in t.users && x != k ==> r.users[x] == t.users[x]
    ensures k in t.users && Wf(t) ==> r.order == t.order
    ensures k !in t.users && Wf(t) ==> r.order == t.order + [k]
    ensures Wf(t) ==> Wf(r)
  {
    Table(t.users[k := u], if k in t.order then t.order else t.order + [k])
  }

  /** `map.get(k).position = p` when `k` is present; nothing otherwise. */
  function WithPosition(t: Table, k: Value, p: Value): (r: Table)
    ensures k !in t.users ==> r == t
    ensures r.users.Keys == t.users.Keys && r.order == t.order
    ensures k in t.users ==> r.users[k] == t.users[k].(position := p)
    ensures forall x :: x in t.users && x != k ==> r.users[x] == t.users[x]
    ensures Wf(t) ==> Wf(r)
  {
    if k in t.users then Table(t.users[k := t.users[k].(position := p)], t.order) else t
  }

  /** `map.delete(k)`: the entry and its place in the order go; deleting an absent key does nothing. */
  function Delete(t: Table, k: Value): (r: Table)
    ensures r.users.Keys == t.users.Keys - {k}
    ensures forall x :: x in r.users ==> r.users[x] == t.users[x]
    ensures Wf(t) && k !in t.users ==> r == t
    ensures Wf(t) ==> Wf(r)
  {
    Table(t.users - {k}, Erase(t.order, k))
  }

  /** Deleting a present key cuts it out of the iteration order at its index; the other keys keep their relative order. */
  lemma DeleteKeepsOrder(t: Table, k: Value)
    requires Wf(t) && k in t.users
    ensures exists i :: 0 <= i < |t.order| && t.order[i] == k && Delete(t, k).order == t.order[..i] + t.order[i + 1..]
  {
    EraseKeepsOrder(t.order, k);
  }

  lemma {:induction false} DistinctCard(s: seq<Value>)
    requires Distinct(s)
    ensures |set x | x in s| == |s|
  {
    if s != [] {
      DistinctTail(s);
      DistinctCard(s[1..]);
      assert (set x | x in s) == (set x | x in s[1..]) + {s[0]};
    }
  }

  /** The Map's size is the length of its iteration order. */
  lemma SizeIsOrderLength(t: Table)
    requires Wf(t)
    ensures |t.users| == |t.order|
  {
    DistinctCard(t.order);
    assert t.users.Keys == set x | x in t.order;
  }

  /** `Array.from(map.entries()).map(f)`: one element per entry, in iteration order. */
  function MapEntries(t: Table, f: (Value, User) -> Value): (r: seq<Value>)
    requires forall k :: k in t.order ==> k in t.users
    ensures |r| == |t.order|
    ensures forall i :: 0 <= i < |r| ==> r[i] == f(t.order[i], t.users[t.order[i]])
    decreases |t.order|
  {
    if t.order == [] then []
    else [f(t.order[0], t.users[t.order[0]])] + MapEntries(Table(t.users, t.order[1..]), f)
  }

  /**
   * The position in iteration order of the first entry whose `ws` is `w`
   * (`|order|` when there is none): what findUserIdByWs looks for.
   */
  function FirstWithWs(users: map<Value, User>, order: seq<Value>, w: Value): (i: nat)
    requires forall k :: k in order ==> k in users
    ensures i <= |order|
    ensures i < |order| ==> users[order[i]].ws == w
    ensures forall j :: 0 <= j < i ==> users[order[j]].ws != w
    decreases |order|
  {
    if order == [] then 0
    else if users[order[0]].ws == w then 0
    else 1 + FirstWithWs(users, order[1..], w)
  }

  /** What findUserIdByWs returns for connection `w`: the matching key, or null. */
  function UserIdByWs(t: Table, w: Value): (userId: Value)
    requires forall k :: k in t.order ==> k in t.users
    ensures userId != Null ==> userId in t.users && t.users[userId].ws == w
  {
    var i := FirstWithWs(t.users, t.order, w);
    if i < |t.order| then t.order[i] else Null
  }

  /** No stored record holds a connection in its `ws` field. */
  ghost predicate NoHandles(t: Table)
  {
    forall k :: k in t.users ==> !t.users[k].ws.Conn?
  }

  /** When no record holds a connection, no connection is ever found. */
  lemma {:induction false} NoHandleNotFound(t: Table, c: ConnId)
    requires Wf(t) && NoHandles(t)
    ensures UserIdByWs(t, Conn(c)) == Null
  {
  }
}
