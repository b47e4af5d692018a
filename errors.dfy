/** The exceptions that reach the session handler, and a result type for the
    operations that raise them. */
module Errors {

  /** The exceptions the server distinguishes. Only a `ValueError` is reported
      to the client; every other one is only logged. */
  datatype Exception =
    | ValueError(message: string)   // a request the server rejects
    | KeyError(key: string)         // a dictionary lookup of a missing key
    | PingError                     // the heartbeat got no 'pong' in time
    | ConnectionClosed              // a send on a connection that is gone

  /** The value of an operation, or the exception it raises. */
  datatype Result<T> = Ok(value: T) | Err(error: Exception)

  const PARSE_FAILED: string := "Fail to parse URL"
  const FORBIDDEN: string := "Forbidden"
  const NOT_FOUND: string := "Not Found"
}
