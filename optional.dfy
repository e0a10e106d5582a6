/** Optional values and results with an error, used in place of Go's nil and (value, error) pairs. */
module Optional {

  /** A value that may be missing: Go's nil pointer or nil error. */
  datatype Option<T> = None | Some(value: T)

  /** Either a value or an error: Go's `(value, err)` return where exactly one side is meaningful. */
  datatype Result<T, E> = Success(value: T) | Failure(error: E)
}
