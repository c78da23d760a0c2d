/** Small failure-carrying datatypes shared by the three front ends. */
module Wrappers {

  /** A value that may be absent: Kotlin's nullable types, Python's None. */
  datatype Option<T> = None | Some(value: T) {

    /** The carried value, or `default` when absent (Kotlin's `?:`). */
    function GetOr(default: T): T {
      match this
      case Some(v) => v
      case None => default
    }
  }

  /** The result of a call into code outside the model that may raise:
      the value it returned, or the message of the exception (`str(e)`). */
  datatype Outcome<T> = Returned(value: T) | Raised(message: string)

  /** Raw bytes: uploaded files and recordings. */
  type Bytes = seq<bv8>
}
