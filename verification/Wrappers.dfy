/** Optional values and outcomes that may fail, shared by every module. */
module Wrappers {

  datatype Option<+T> = None | Some(value: T)

  /** A computation that yields a value or stops with an error; usable with `:-`. */
  datatype Result<+T, +E> = Ok(value: T) | Err(error: E) {

    predicate IsFailure() {
      Err?
    }

    function PropagateFailure<U>(): Result<U, E>
      requires Err?
    {
      Err(this.error)
    }

    function Extract(): T
      requires Ok?
    {
      value
    }
  }
}
