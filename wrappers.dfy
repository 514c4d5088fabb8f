/** Option and Result, with the Python exceptions the modelled code can raise. */
module Wrappers {

  datatype Option<+T> = None | Some(value: T)

  /** The Python exception an operation of the source would raise. */
  datatype Error =
    | KeyError    // a dict lookup of a missing key
    | TypeError   // unpacking None
    | ValueError  // max() of an empty sequence
    | IndexError  // indexing an empty list

  datatype Result<+T> = Ok(value: T) | Err(error: Error)
}
