/**
 * The Python exceptions that the modelled code raises, as values.
 * A call that raises is modelled as returning `Raise(e)`; a call that
 * returns normally as `Ok(v)`.
 */
module Errors {
  datatype Exception =
    | KeyError
    | IndexError
    | ValueError
    | AssertionError
    | FileNotFoundError
    | ArgumentTypeError
    | AttributeError
    | TypeError

  datatype Result<T> = Ok(value: T) | Raise(error: Exception)

  datatype Option<T> = None | Some(value: T)
}
