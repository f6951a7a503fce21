/** Optional values and fallible results, shared by every model. */
module Wrappers {

  datatype Option<+T> = None | Some(value: T) {

    function GetOr(default: T): T {
      match this
      case Some(v) => v
      case None => default
    }
  }

  datatype Result<+T, +E> = Ok(value: T) | Err(error: E)

  /** Two optional truths together; one that is not there does not count. */
  function Both(a: Option<bool>, b: Option<bool>): Option<bool> {
    if a.None? then b else if b.None? then a else Some(a.value && b.value)
  }

  function Either(a: Option<bool>, b: Option<bool>): Option<bool> {
    if a.None? then b else if b.None? then a else Some(a.value || b.value)
  }
}
