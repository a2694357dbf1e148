/** Failure-carrying datatypes shared by every module of the model. */
module Wrappers {

  /** A value that may be absent: JavaScript's `null`/`undefined` or a missing header. */
  datatype Option<+T> = None | Some(value: T)

  /** The result of a call into code the model does not see (a library, the database,
      the network, the auth context): it either returns a value or throws. */
  datatype Outcome<+T> = Returned(value: T) | Threw
}
