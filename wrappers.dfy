/** Option and the outcome of a request handler. */
module Wrappers {

  datatype Option<+T> = None | Some(value: T)

  /** What a handler answers: the record(s) it produced, or the error it reported
      (404 for NotFound, 400 for BadRequest; the message is the `error` field of the reply). */
  datatype Response<+T> = Ok(value: T) | NotFound(error: string) | BadRequest(error: string)
}
