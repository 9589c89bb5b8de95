/** Failure-carrying values shared by every module: Go's `(value, error)` pairs become `Result`,
    Go's nil-able values become `Option`. */
module Results {

  /** A Go `error`: only its message is observable to the service. */
  datatype Error = Error(message: string)

  datatype Option<+T> = None | Some(value: T)

  datatype Result<+T> = Ok(value: T) | Err(error: Error)
}
