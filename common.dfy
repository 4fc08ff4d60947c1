/** Option and result types shared by the registry, the experiment engine and the score normalizer. */
module Common {

  datatype Option<T> = None | Some(value: T)

  /** The failures that the manager reports as an `{'error': ...}` dictionary. */
  datatype Error =
    | ModelTypeNotFound(modelType: string)
    | VersionNotFound(version: string)
    | TestNotFound(testId: string)
    | TestNotRunning(testId: string)

  datatype Result<T> = Ok(value: T) | Err(error: Error)
}
