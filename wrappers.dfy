/** Small failure-carrying datatypes shared by the other modules. */
module Wrappers {

  /** A value that may be absent: a nullable column or a missing lookup. */
  datatype Option<T> = None | Some(value: T)

  /** The verdict of a check or a workflow: it passed, or it failed with an error. */
  datatype Outcome<E> = Pass | Fail(error: E)
}
