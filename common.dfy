// Shared wrappers: optional values and the error path of operations that throw.

module Common {
  datatype Option<T> = None | Some(value: T)

  /** `Err` carries the message the plugin throws or shows. */
  datatype Result<T> = Ok(value: T) | Err(error: string)
}
