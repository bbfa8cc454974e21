/** Failure-compatible wrappers used throughout the model.
    `Option` stands for a Java reference that may be `null`;
    `Result` stands for a computation that may throw a runtime exception. */
module Wrappers {

  datatype Option<+T> = None | Some(value: T) {
    /** The value, or `default` when absent (the Java code's "null counts as zero"). */
    function GetOr(default: T): T {
      match this
      case Some(v) => v
      case None => default
    }
  }

  /** The Java runtime exceptions the modelled code can raise. */
  datatype Error =
    | IndexOutOfBounds    // ArrayIndexOutOfBoundsException
    | NegativeArraySize   // NegativeArraySizeException
    | NoSuchElement       // Optional.get / OptionalInt.getAsInt on an empty stream
    | NullPointer         // a map lookup that returned null was dereferenced

  datatype Result<+R> = Ok(value: R) | Err(error: Error) {
    predicate IsFailure() {
      Err?
    }

    function PropagateFailure<U>(): Result<U>
      requires Err?
    {
      Err(error)
    }

    function Extract(): R
      requires Ok?
    {
      value
    }
  }
}
