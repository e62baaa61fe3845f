/** Option and Result values, and the error kinds the host-side Python and
    JavaScript code raises, so that a raised exception is a value of the model
    rather than a precondition. */
module Wrappers {

  datatype Option<T> = None | Some(value: T)
  {
    predicate IsSome() { Some? }
  }

  datatype Result<T, E> = Ok(value: T) | Err(error: E)
  {
    predicate IsOk() { Ok? }
  }

  /** The Python exceptions the host scripts raise on bad input. */
  datatype PyError =
    | ValueError       // explicit range checks and enum lookups
    | StructError      // struct.pack of a value that does not fit its format
    | OverflowError    // int.to_bytes of a value that does not fit, or a negative one
    | TypeError        // indexing None, or a JavaScript argument of the wrong type
    | IndexError       // str.split(...)[1] on a string without the separator
    | UnicodeDecodeError // bytes.decode('utf-8') of bytes that are not UTF-8
}
