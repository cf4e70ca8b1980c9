/** Option and Result, with the Python exceptions that the modelled code raises
    or lets escape to its caller. */
module Wrappers {

  datatype Option<+T> = None | Some(value: T)

  /** The exceptions of the modelled code, by Python class. `IOError` stands for
      whatever a failed HTTP request, file transfer or file read raises (OSError). */
  datatype Exception =
    | KeyError(key: string)     // a missing string key
    | IntKeyError(intKey: int)  // a missing integer key, as `d[0]` on a dict
    | IndexError
    | ValueError
    | TypeError
    | IOError

  /** A value or the exception raised instead; usable with `:-`. */
  datatype Result<+T> = Ok(value: T) | Err(error: Exception) {

    predicate IsFailure() {
      Err?
    }

    function PropagateFailure<U>(): Result<U>
      requires Err?
    {
      Err(error)
    }

    function Extract(): T
      requires Ok?
    {
      value
    }
  }
}
