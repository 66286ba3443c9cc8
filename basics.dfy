/** Value types shared by every part of the model: optional values, the
    opaque errors that stand for C++ exceptions, and the outcome of reading a
    result slot (the value, or the error that reading rethrows). */
module Basics {

  /** An optional value; `None` stands for a null pointer or an empty `std::optional`. */
  datatype Option<+T> = None | Some(value: T)

  /** A thrown C++ exception. `Thrown(id)` is any exception raised by user code,
      identified only by an opaque token; the two others are the library
      exceptions the core can raise itself. */
  datatype Error =
    | Thrown(id: nat)
    | BadOptionalAccess  // std::optional::value() on an empty optional
    | BadAlloc           // std::bad_alloc from a failed stack allocation

  /** The outcome of a computation that may throw: its value, or the exception. */
  datatype Try<+T> = Success(value: T) | Failure(error: Error)
}
