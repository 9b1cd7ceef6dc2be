/**
 Failure-carrying and optional values, standing in for the exceptions the
 program raises and for its optional (`None`-able) constructor arguments.
 */
module Results {

  /** Either a computed value or the error the program would have raised. */
  datatype Result<T, E> = Ok(value: T) | Err(error: E)

  /** An argument that the caller may omit. */
  datatype Option<T> = None | Some(value: T)
}
