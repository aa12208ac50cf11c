/** Optional values and the exceptions the engine raises, as values. */
module Results {

  datatype Option<T> = None | Some(value: T)

  /** The exceptions the core raises. */
  datatype Error =
    | AssertionFailed            // a failed `assert len(cards) == ...`
    | ValueError(message: string)
    | ZeroDivisionError          // a float division by `0.0`

  datatype Result<T> = Ok(value: T) | Err(error: Error)
}
