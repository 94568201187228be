/** Rust's `Option` and `Result`, as the rest of the model uses them. */
module Types {

  datatype Option<T> = None | Some(value: T)

  /** What `Option::unwrap_or` returns. */
  function UnwrapOr<T>(o: Option<T>, default: T): (r: T)
    ensures o.Some? ==> r == o.value
    ensures o.None? ==> r == default
  {
    match o
    case Some(v) => v
    case None => default
  }

  datatype Result<T, E> = Ok(value: T) | Err(error: E)
}
