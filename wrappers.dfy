// Generic sum types used throughout the model: Rust's Option, Result,
// futures' Either and the Poll of an asynchronous operation.
module Wrappers {

  datatype Option<+T> = None | Some(value: T)
  {
    predicate IsSome() { this.Some? }
  }

  datatype Result<+T, +E> = Ok(value: T) | Err(error: E)

  datatype Either<+L, +R> = Left(left: L) | Right(right: R)

  /// The outcome of polling a future or stream once: not ready yet, or ready
  /// with a value. The waker registration of the real Poll is not modelled.
  datatype Poll<+T> = Pending | Ready(value: T)
}
