/** Failure-carrying result types shared by the mesh and smart-pointer models. */
module Wrappers {

  /** An optional value: `None` plays the role of a null or "not found". */
  datatype Option<+T> = None | Some(value: T)

  /** Either a constructed value or the error that aborted construction. */
  datatype Result<+R, +E> = Success(value: R) | Failure(error: E)
}
