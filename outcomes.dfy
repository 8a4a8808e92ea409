/** Option and Result wrappers, and the exceptions the board service lets escape. */
module Outcomes {

  /** A Java reference that may be null. */
  datatype Option<+T> = None | Some(value: T)

  /** A value, or the exception that a Java method would have thrown instead. */
  datatype Result<+T, +E> = Ok(value: T) | Err(error: E)

  /** The exceptions that reach the caller of the service. */
  datatype Thrown =
    | IllegalArgument         // no post with the requested id, or a blank download file name
    | StringIndexOutOfBounds  // String.substring with a begin index past the end
    | NoSuchKey               // the object store holds nothing under the key
}
