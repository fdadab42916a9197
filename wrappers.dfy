/** Failure-carrying values shared by the pipeline's modules. */
module Wrappers {

  /** An optional value: Python's `None` versus a present value. */
  datatype Option<+T> = None | Some(value: T)

  /** The result of calling an external collaborator: it either returned a
      value or raised an exception (whose details the pipeline only logs). */
  datatype Outcome<+T> = Ok(value: T) | Raised
}
