/** Stand-ins for Java's null and for a thrown exception. */
module Wrappers {

  /** A value that Java may leave `null`: `None` is null. */
  datatype Option<+T> = None | Some(value: T)

  /** The outcome of a Java call that either returns or throws; what was thrown is not modelled. */
  datatype Result<+T> = Success(value: T) | Failure
}
