/** Failure-compatible result types shared by every module of the model.
    Each Go `panic(...)` and each `error` return of the core becomes a
    distinguished `Error` value, propagated with `:-`. */
module Results {

  datatype Option<+T> = None | Some(value: T) {
    function GetOr(default: T): T {
      match this
      case Some(v) => v
      case None => default
    }
  }

  /** The kinds of failure the core produces. */
  datatype Error =
    | NotImplemented(msg: string)   // panic("Not implemented: ...") and "Type xsd:... not implemented"
    | CannotResolve(msg: string)    // panic("Cannot resolve ...") and panic("Cannot build ...: unknown type")
    | InternalError(msg: string)    // panic("Internal error: ...")
    | InvalidOverride(msg: string)  // error returned by the two override parsers
    | IndexOutOfRange(msg: string)  // Go runtime panic raised by a slice expression
    | FileError(path: string)       // opening, reading or decoding a schema file failed
    | DirError(msg: string)         // reading the template directory failed
    | MalformedWorkspace(msg: string) // two schemas claim one Go package name
    | NilDereference(msg: string)   // Go runtime panic on a nil pointer
    | OutOfFuel                     // recursion deeper than the model's bound (Go would not return)

  datatype Result<+T> = Ok(value: T) | Fail(error: Error) {
    predicate IsFailure() {
      Fail?
    }

    function PropagateFailure<U>(): Result<U>
      requires Fail?
    {
      Fail(error)
    }

    function Extract(): T
      requires Ok?
    {
      value
    }
  }
}
