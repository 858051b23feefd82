/**
 * The JavaScript values the relay handles: what JSON.parse yields for an
 * inbound frame, and the connection handles the server code passes around
 * as ordinary arguments.
 */
module Values {

  /** An abstract connection (a `ws` socket object, compared by identity). */
  type ConnId = nat

  datatype Value =
    | Undefined
    | Null
    | Bool(b: bool)
    | Num(n: real)
    | Str(s: string)
    | Arr(items: seq<Value>)
    | Obj(fields: map<string, Value>)
    | Conn(id: ConnId)

  /** JavaScript truthiness, as used by `if (!x)` and `if (x)`. */
  predicate Truthy(v: Value)
  {
    match v
    case Undefined => false
    case Null => false
    case Bool(b) => b
    case Num(n) => n != 0.0
    case Str(s) => s != ""
    case _ => true
  }

  /** A value JSON.parse can produce: no `undefined` and no connection anywhere inside. */
  predicate IsJson(v: Value)
  {
    match v
    case Undefined => false
    case Conn(_) => false
    case Arr(items) => forall i :: 0 <= i < |items| ==> IsJson(items[i])
    case Obj(fields) => forall k :: k in fields ==> IsJson(fields[k])
    case _ => true
  }

  /** The exceptions the core can raise. */
  datatype JsError = TypeError | SyntaxError | Error(message: string)

  /** How a JavaScript call ends: it returns a value or it throws. */
  datatype Completion<T> = Normal(value: T) | Throw(error: JsError)

  /**
   * `v.key` on a value that is not null or undefined: the own property, or
   * undefined when there is none. No key read by the core names a built-in
   * property of strings, numbers, booleans or arrays.
   */
  function Get(v: Value, key: string): (r: Value)
  {
    if v.Obj? && key in v.fields then v.fields[key] else Undefined
  }

  /** A property read from a parsed value is missing or is itself a parsed value. */
  lemma JsonFieldIsNoConnection(v: Value, key: string)
    requires IsJson(v)
    ensures !Get(v, key).Conn?
  {
  }

  /** `v.key`, including the TypeError raised on null and undefined. */
  function Prop(v: Value, key: string): (c: Completion<Value>)
    ensures c.Throw? <==> v == Undefined || v == Null
    ensures c.Throw? ==> c.error == TypeError
    ensures c.Normal? ==> c.value == Get(v, key)
  {
    if v == Undefined || v == Null then Throw(TypeError) else Normal(Get(v, key))
  }

  /** A message object `{type: kind, ...fields}` as the code writes it before JSON.stringify. */
  function Message(kind: string, fields: map<string, Value>): (m: Value)
    ensures Get(m, "type") == Str(kind)
    ensures forall k :: k in fields && k != "type" ==> Get(m, k) == fields[k]
  {
    Obj(fields["type" := Str(kind)])
  }

  /** An inbound frame after JSON.parse: either it failed, or it produced a value. */
  datatype Frame = Unparsable | Parsed(data: Value)
}
