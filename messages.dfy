/**
 * The values exchanged by the command protocol: the untyped parameters a
 * request carries, the request envelope and the result envelope.
 */
module Messages {
  import opened Wrappers

  /**
   * A parameter as the JSON decoder hands it to the server when the target
   * type is an empty interface: a string, a number (always a float), a
   * boolean, null, an array or an object.
   */
  datatype Value =
    | Str(s: string)
    | Num(n: real)
    | Bool(b: bool)
    | Null
    | Arr(items: seq<Value>)
    | Obj(fields: seq<(string, Value)>)

  /** What a successful command puts in the `Result` field. */
  datatype Answer =
    | Text(text: string)               // a fixed string
    | Rendered(params: seq<Value>)     // the textual rendering of the params (left symbolic)
    | Flag(flag: bool)                 // a boolean acknowledgement
    | Names(names: seq<string>)        // the registered player names

  /** An inbound request: a client-chosen correlation id, a command (method) name and its params. */
  datatype IncomingMessage = IncomingMessage(id: int, command: string, params: seq<Value>)

  /** An outbound result; an absent `result` or `error` is omitted from the encoding. */
  datatype ResultMessage = ResultMessage(id: int, result: Option<Answer>, error: Option<string>)

  const Greeting := "well hello to you too!"
  const NotFoundError := "command not found."
  const ArityError := "expected 1 parameter."
  const TypeError := "Parameter Type error"

  /** A fresh result carrying `a`; its id is the zero value until the caller sets it. */
  function ResultOf(a: Answer): (r: ResultMessage)
  {
    ResultMessage(0, Some(a), None)
  }

  /** A fresh result carrying the error text `e`. */
  function ErrorOf(e: string): (r: ResultMessage)
  {
    ResultMessage(0, None, Some(e))
  }
}
