// Option and Result: the value-or-nothing and value-or-error shapes shared by
// every module of the model (Python's None / raised ValueError, JavaScript's
// null / undefined).
module Wrappers {
  datatype Option<T> = None | Some(value: T)
  {
    function GetOr(default: T): (r: T)
      ensures this.Some? ==> r == value
      ensures this.None? ==> r == default
    {
      match this
      case Some(v) => v
      case None => default
    }
  }

  datatype Result<T, E> = Ok(value: T) | Err(error: E)
}
