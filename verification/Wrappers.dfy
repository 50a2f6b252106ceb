/** Small sum types shared by the ledger modules. */
module Wrappers {

  /** A value that may be missing; stands for `Address | undefined` in a
      notification. */
  datatype Option<+T> = None | Some(value: T) {

    /** The carried value when present, `default` otherwise. */
    function GetOr(default: T): T {
      if Some? then value else default
    }
  }

  /** What a contract call produces: the next value, or the error it threw. */
  datatype Result<+R, +E> = Success(value: R) | Failure(error: E)
}
