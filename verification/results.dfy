/** Option and Result values for the pipeline's absent bounds and hard failures. */
module Results {

  /** A value that may be absent, such as an unset date bound. */
  datatype Option<+T> = None | Some(value: T)

  /** Either a value or the error that aborted its computation. */
  datatype Result<+R, +E> = Success(value: R) | Failure(error: E)
}
