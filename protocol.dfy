/**
 * The JSON messages exchanged between the browser client and the relay,
 * as the objects each side hands to JSON.stringify.
 */
module Protocol {
  import opened Values

  /** Client to server: `{type: 'register', nickname}`. */
  function RegisterRequest(nickname: Value): (m: Value)
    ensures m.Obj? && Get(m, "type") == Str("register") && Get(m, "nickname") == nickname
  {
    Message("register", map["nickname" := nickname])
  }

  /** Server to the registering client: `{type: 'registered', userId}`. */
  function RegisteredMessage(userId: Value): (m: Value)
    ensures m.Obj? && Get(m, "type") == Str("registered") && Get(m, "userId") == userId
  {
    Message("registered", map["userId" := userId])
  }

  /** `{type: 'positionUpdate', userId, position}`: sent by a client, and relayed to every client. */
  function PositionUpdateMessage(userId: Value, position: Value): (m: Value)
    ensures m.Obj? && Get(m, "type") == Str("positionUpdate")
    ensures Get(m, "userId") == userId && Get(m, "position") == position
  {
    Message("positionUpdate", map["userId" := userId, "position" := position])
  }

  /** Server to every client: `{type: 'userUpdate', users}`. */
  function UserUpdateMessage(users: seq<Value>): (m: Value)
    ensures m.Obj? && Get(m, "type") == Str("userUpdate") && Get(m, "users") == Arr(users)
  {
    Message("userUpdate", map["users" := Arr(users)])
  }
}
