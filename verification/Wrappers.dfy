/** Optional values and fallible results, as the crates use them. */
module Wrappers {

  datatype Option<+T> = None | Some(value: T) {
    function UnwrapOr(fallback: T): T {
      match this
      case Some(v) => v
      case None => fallback
    }
  }

  datatype Result<+T, +E> = Ok(value: T) | Err(error: E) {
    predicate IsFailure() {
      Err?
    }

    function PropagateFailure<U>(): Result<U, E>
      requires Err?
    {
      Err(error)
    }

    function Extract(): T
      requires Ok?
    {
      value
    }
  }

  /** The error variants of `core/src/error.rs`; the message texts are not modelled. */
  datatype DidError =
    | InvalidDid
    | InvalidArgument
    | InvalidSignature
    | InvalidMultibase
    | NotFound
    | InternalError
    | SerializationError

  /** The value of a fallible call that returns nothing. */
  datatype Unit = Unit
}
