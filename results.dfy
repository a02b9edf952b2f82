/** Option and Result wrappers, and the one exception the report core raises. */
module Results {

  datatype Option<T> = None | Some(value: T) {
    /** Python's `d.get(key, default)` on a key that may be absent. */
    function GetOr(default: T): T {
      if Some? then value else default
    }
  }

  /** A Python `KeyError` for subscripting a dictionary with a missing key. */
  datatype Error = KeyError(key: string)

  datatype Result<T> = Ok(value: T) | Err(error: Error) {
    predicate IsFailure() {
      Err?
    }

    function PropagateFailure<U>(): Result<U>
      requires Err?
    {
      Err(error)
    }

    function Extract(): T
      requires Ok?
    {
      value
    }
  }
}
