/** Option and Result, the two failure-carrying shapes every component of the model uses.
    `Option` stands for a JavaScript value that may be `undefined`/`null` (or a Python key
    that may be absent); `Result` stands for an operation that returns or throws. */
module Wrappers {

  datatype Option<+T> = None | Some(value: T) {

    /** The value, or `default` when absent. */
    function GetOr(default: T): T
    {
      match this
      case Some(v) => v
      case None => default
    }
  }

  datatype Result<+T, +E> = Ok(value: T) | Err(error: E) {

    predicate IsOk()
    {
      Ok?
    }
  }

  /** JavaScript truthiness of an optional number: `undefined`, `NaN` (both `None`) and `0` are falsy. */
  predicate Truthy(o: Option<int>)
  {
    o.Some? && o.value != 0
  }

  /** JavaScript `a || fallback` on an optional number. */
  function OrElse(o: Option<int>, fallback: int): int
  {
    if Truthy(o) then o.value else fallback
  }
}
