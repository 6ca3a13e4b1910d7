/** Failure-compatible wrappers used throughout the model: `Option` for values that
    may be absent and `Result` for computations that may raise a Java exception. */
module Outcomes {

  datatype Option<+T> = None | Some(value: T)

  datatype Result<+T, +E> = Success(value: T) | Failure(error: E) {

    predicate IsFailure() {
      Failure?
    }

    function PropagateFailure<U>(): Result<U, E>
      requires Failure?
    {
      Failure(error)
    }

    function Extract(): T
      requires Success?
    {
      value
    }
  }

  /** The runtime exceptions the decoders can raise. */
  datatype Exception =
    | NumberFormat            // NumberFormatException from Integer.parseInt / Float.parseFloat
    | IndexOutOfBounds        // ArrayIndexOutOfBoundsException on a missing field
    | StringIndexOutOfBounds  // StringIndexOutOfBoundsException from String.substring
}
