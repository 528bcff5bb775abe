/** Optional values and fallible results, the Dafny counterparts of Rust's
    `Option<T>` and `Result<T, E>`. `Result` can be used with `:-`, which
    plays the part of Rust's `?`. */
module Wrappers {

  datatype Option<+T> = None | Some(value: T)

  datatype Result<+T, +E> = Ok(value: T) | Err(error: E) {
    predicate IsFailure() { Err? }

    function PropagateFailure<U>(): Result<U, E>
      requires Err?
    {
      Err(error)
    }

    function Extract(): T
      requires Ok?
    {
      value
    }
  }

  /** The unit value carried by a successful `Result<(), E>`. */
  datatype Unit = Unit
}
