/** Outcomes of the steps that can raise in the recovery walk. */
module Results {

  datatype Option<T> = None | Some(value: T)

  /** A step either yields a value or raises; the kind of exception is not distinguished. */
  datatype Result<T> = Ok(value: T) | Fail
}
