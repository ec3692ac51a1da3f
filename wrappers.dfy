/** The outcome of a field validator: the accepted value, or the message of
    the validation error it raises. */
module Wrappers {

  datatype Option<+T> = None | Some(value: T)

  datatype Result<+T> = Ok(value: T) | Err(message: string)
}
