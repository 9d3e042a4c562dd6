/** Failure-carrying datatypes shared by the model. A Java `null` becomes
    `None`; a Java exception that a member may raise becomes `Err`. */
module Wrappers {

  datatype Option<+T> = None | Some(value: T)

  datatype Result<+T, +E> = Ok(value: T) | Err(error: E)
}
