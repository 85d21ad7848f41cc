/**
 The three exception classes of the application and a failure-compatible
 result type that stands for "returns a value or raises one of them".
 */
module Outcomes {

  /** ConfigurationError, APIError and SecurityError of app.py. */
  datatype ErrorKind = ConfigurationError | APIError | SecurityError

  /** A raised exception: its class and the text `str(e)` would give. */
  datatype Error = Error(kind: ErrorKind, message: string)

  datatype Option<+T> = None | Some(value: T)

  /** Either the returned value or the raised exception. Usable with `:-`. */
  datatype Result<+T> = Ok(value: T) | Err(error: Error) {

    predicate IsFailure() {
      Err?
    }

    function PropagateFailure<U>(): Result<U>
      requires Err?
    {
      Err(error)
    }

    function Extract(): T
      requires Ok?
    {
      value
    }
  }

  function Fail<T>(kind: ErrorKind, message: string): Result<T> {
    Err(Error(kind, message))
  }

  /** `except Exception as e: raise kind(prefix + str(e))`: every failure is
      re-raised as `kind`, its message prefixed; a value passes through. */
  function Rewrap<T>(r: Result<T>, kind: ErrorKind, prefix: string): (w: Result<T>)
    ensures r.Ok? ==> w == r
    ensures r.Err? ==> w.Err? && w.error.kind == kind
    ensures r.Err? ==> w.error.message == prefix + r.error.message
  {
    match r
    case Ok(v) => Ok(v)
    case Err(e) => Err(Error(kind, prefix + e.message))
  }
}
