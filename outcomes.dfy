/**
 * Optional values and results shared by every module of the backend model.
 */
module Outcomes {

  /** A value that may be absent: JavaScript's `undefined` (or a missing property) is `None`. */
  datatype Option<+T> = None | Some(value: T)

  /** The outcome of an operation that may throw: `Err` carries what was thrown. */
  datatype Result<+T, +E> = Ok(value: T) | Err(error: E)

  /** JavaScript truthiness of an optional string: present and not empty. */
  predicate Given(o: Option<string>) {
    o.Some? && o.value != ""
  }
}
