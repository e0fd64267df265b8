/** Failure-compatible wrappers used across the model: a Python call that can
    raise becomes a function returning a `Result`, and a value that can be
    absent (`None`) becomes an `Option`. */
module Results {

  datatype Option<+T> = None | Some(value: T)

  /** `Failure` carries the name of the Python exception the call would raise. */
  datatype Result<+T> = Success(value: T) | Failure(error: string)
}
