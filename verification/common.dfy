/** Option and error types shared by every part of the tournament model. */
module Common {

  /** Rust's `Option`. */
  datatype Option<+T> = None | Some(value: T)

  /** The one error kind the core itself raises (error/mod.rs:4). */
  datatype Error = InvalidInput

  /** Rust's `Result<(), Error>`. */
  datatype Status = Ok | Err(error: Error)

  /** Rust's `Result<T, Error>`. */
  datatype Result<+T> = Success(value: T) | Failure(error: Error)
}
