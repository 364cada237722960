/** Optional values and HTTP-style replies shared by the backend and frontend models. */
module Wrappers {

  datatype Option<+T> = None | Some(value: T) {
    function GetOr(default: T): T {
      match this
      case Some(v) => v
      case None => default
    }
  }

  /** What a request handler sends back: a success status with its body, or an error status
      with the `message` field of its JSON body. */
  datatype Reply<+T> = Success(status: int, value: T) | Failure(status: int, message: string)

  /** `message || fallback` in the browser: the server's message when the reply carried a
      non-empty one, the fallback text otherwise. */
  function MessageOr(message: Option<string>, fallback: string): (text: string)
    ensures message.Some? && message.value != "" ==> text == message.value
    ensures message.None? || message.value == "" ==> text == fallback
  {
    if message.Some? && message.value != "" then message.value else fallback
  }

  const OK := 200
  const CREATED := 201
  const BAD_REQUEST := 400
  const UNAUTHORIZED := 401
  const FORBIDDEN := 403
  const NOT_FOUND := 404
  const CONFLICT := 409
  const SERVER_ERROR := 500
}
