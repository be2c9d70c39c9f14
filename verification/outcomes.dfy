/** Replies shared by the handlers: an error for each failure status they send, and the
    success/failure wrapper every handler returns. */
module Outcomes {

  /** The failure replies, one per HTTP status the handlers write. */
  datatype Error =
    | BadRequest          // 400: binding failure, database error, failed insert
    | Unauthorized        // 401: sign-up password rejected by the numeric policy
    | NotFound            // 404: no matching row (and a few other paths that write 404)
    | InsufficientFunds   // 406: transfer amount above the sender's balance
    | Conflict            // 409: sign-up with a username that already exists
    | Internal            // 500: failed save or commit, or a recovered panic

  datatype Result<T> = Ok(value: T) | Err(error: Error)

  datatype Option<T> = None | Some(value: T)

  /** A handler that writes an error reply and then carries on (it lacks a `return`)
      still answers with that first reply: the status of a response cannot change
      once it has been written. `pending` is that first reply, if any. */
  function Answer<T>(pending: Option<Error>, r: Result<T>): Result<T> {
    match pending
    case Some(e) => Err(e)
    case None => r
  }
}
