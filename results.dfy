/** Error-carrying values in the shape of Rust's `Option` and `Result`, used where the firmware
    propagates a pin error with `?` instead of panicking. */
module Results {

  datatype Option<+T> = None | Some(value: T)

  /** `Result<T, E>`: a value, or the error that aborted the computation. */
  datatype Result<+T, +E> = Success(value: T) | Failure(error: E)

  /** `Result<(), E>`: success without a value, or an error. */
  datatype Outcome<+E> = Pass | Fail(error: E)
}
