/** Failure-carrying datatypes shared by the whole model. */
module Wrappers {

  /** A Python value that may be `None`. */
  datatype Option<+T> = None | Some(value: T)

  /** The Python exceptions the modelled code can raise on bad stored data. */
  datatype Error =
    | ValueError  // int() or float() of a malformed string, list.index of a missing element
    | KeyError    // a dictionary lookup of a missing key
    | UnboundLocalError  // a local variable read before any assignment to it

  /** The outcome of a computation that either returns or raises. */
  datatype Result<+T> = Ok(value: T) | Err(error: Error)
}
