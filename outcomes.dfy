// Optional values and the exceptions the photo organiser raises, so that an
// operation that raises before it changes anything is modelled as an error
// result.

module Outcomes {

  datatype Option<T> = None | Some(value: T)

  /** The Python exception classes raised by the modelled code. */
  datatype Error =
    | ValueError
    | TypeError
    | IndexError
    | KeyError
    | AttributeError
    | AlbumError
    | DatabaseError
    | IntegrityError
    | AssertionError

  datatype Result<T> = Ok(value: T) | Err(error: Error)
}
