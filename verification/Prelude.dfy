/** Result types and the error type shared by the command-line crate. */
module Prelude {
  datatype Option<+T> = None | Some(value: T)

  /** Rust's `Result`, usable with `:-` like the `?` operator. */
  datatype Result<+T, +E> = Ok(value: T) | Err(error: E) {
    predicate IsFailure() {
      Err?
    }

    function PropagateFailure<U>(): Result<U, E>
      requires Err?
    {
      Err(error)
    }

    function Extract(): T
      requires Ok?
    {
      value
    }
  }

  /** The value of a `Result` that carries nothing. */
  datatype Unit = Unit

  datatype ErrorKind = Validation | Unsupported | NotFound | Conflict | Backend | Io

  /** An error with its stable kind and code. Errors the model raises itself
      carry no interpolated text; errors of clients carry their own message. */
  datatype CliError = CliError(kind: ErrorKind, code: string, message: string)

  function Raise(kind: ErrorKind, code: string): (e: CliError)
    ensures e.kind == kind && e.code == code
  {
    CliError(kind, code, code)
  }
}
