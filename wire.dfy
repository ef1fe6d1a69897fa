/**
 * The abstract view of what one HTTP exchange of the client can hand to its
 * callback: either a transport error or a decoded JSON body. Only the parts
 * of a body that the client looks at are kept.
 */
module Wire {

  datatype Option<+T> = None | Some(value: T)

  /** One action record of a notification batch; its contents are opaque to the client. */
  datatype Action = Action(payload: string)

  /** The `a` array of a notification answer, in the order the server sent it. */
  type Batch = seq<Action>

  /**
   * A decoded JSON body. `Nothing` stands for `undefined` and `null`; `Num`
   * for a number (integers only); `Arr` for an array; `Obj` for an object,
   * of which only the fields `w` (wait URL), `sn` (sequence cursor) and `a`
   * (action batch) are kept, each `None` when the field is missing.
   */
  datatype Value =
    | Nothing
    | Num(n: int)
    | Arr(items: seq<Value>)
    | Obj(w: Option<string>, sn: Option<string>, a: Option<Batch>)

  /** What the HTTP layer passes to a callback: an error, or no error and a body. */
  datatype Reply = TransportError | Body(value: Value)

  /** JavaScript truthiness of a body: `undefined`, `null` and `0` are falsy. */
  predicate Truthy(v: Value) {
    match v
    case Nothing => false
    case Num(n) => n != 0
    case Arr(_) => true
    case Obj(_, _, _) => true
  }

  /** JavaScript truthiness of a string field: missing and empty are falsy. */
  predicate Present(f: Option<string>) {
    f.Some? && f.value != ""
  }

  /** `typeof v === 'number' && v < 0`: the server's protocol error codes. */
  predicate IsCode(v: Value) {
    v.Num? && v.n < 0
  }

  /** An object body with a truthy `sn` field. */
  predicate HasCursor(v: Value) {
    v.Obj? && Present(v.sn)
  }

  /** `if (response.length) response = response[0]`: a non-empty array yields its first element. */
  function Unwrap(v: Value): (u: Value) {
    if v.Arr? && |v.items| > 0 then v.items[0] else v
  }
}
