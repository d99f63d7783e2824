/** Option and Result, the model's stand-ins for Python's absent dictionary keys
    (`d.get(k, default)`) and raised exceptions. */
module Wrappers {

  datatype Option<+T> = None | Some(value: T) {
    /** `d.get(key, default)`: the stored value, or the default when the key is absent. */
    function GetOr(default: T): T {
      match this
      case Some(v) => v
      case None => default
    }
  }

  datatype Result<+T, +E> = Ok(value: T) | Err(error: E) {
    predicate IsFailure() {
      Err?
    }

    function PropagateFailure<U>(): Result<U, E>
      requires Err?
    {
      Err(error)
    }

    function Extract(): T
      requires Ok?
    {
      value
    }
  }
}
