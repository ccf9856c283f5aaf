/** Failure-carrying values shared by every component: a missing value
    (Python's `None`, a failed lookup) and a raised exception. */
module Results {

  datatype Option<+T> = None | Some(value: T)

  /** `Ok` is a normal return; `Err` is an exception the caller sees. */
  datatype Result<+T, +E> = Ok(value: T) | Err(error: E)
}
