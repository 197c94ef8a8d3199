/** Small value wrappers shared by the other modules. */
module Wrappers {

  /** A possibly absent value: a null pointer, an empty `std::optional`, an
      `end()` iterator. */
  datatype Option<T> = None | Some(value: T)

  /** The value of a call that may throw: `Throw` carries the message of the
      exception. */
  datatype Result<T> = Ok(value: T) | Throw(message: string)
}
