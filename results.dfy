/** Rust's `Option` and `Result`, as the core's functions return them. */
module Results {

  datatype Option<+T> = None | Some(value: T) {
    /** `unwrap_or`. */
    function UnwrapOr(default: T): (r: T)
      ensures Some? ==> r == value
      ensures None? ==> r == default
    {
      match this
      case Some(v) => v
      case None => default
    }
  }

  datatype Result<+T, +E> = Ok(value: T) | Err(error: E)
}
