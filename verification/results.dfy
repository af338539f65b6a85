/** Small failure-carrying datatypes used by the loader model. */
module Results {

  /** An optional value; the loader receives `None` when the file could not be opened. */
  datatype Option<+T> = None | Some(value: T)

  /** Either a computed value or the reason it could not be computed. */
  datatype Result<+T, +E> = Ok(value: T) | Err(error: E)
}
