/**
 * Optional values (`T | null` / `T | undefined`) and outcomes of operations
 * that may throw.
 */
module Common {
  datatype Option<T> = None | Some(value: T)

  /** A value, or the message of the `Error` the operation throws. */
  datatype Result<T> = Ok(value: T) | Err(message: string)

  /** JavaScript truthiness of an optional string: present and not empty. */
  predicate Truthy(s: Option<string>) {
    s.Some? && s.value != ""
  }
}
