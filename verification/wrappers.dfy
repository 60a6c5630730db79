/**
 Shared failure-carrying datatypes. The backend reports failures by throwing
 NestJS HTTP exceptions (or a plain JavaScript `Error`); here each throw
 becomes a `Failure` value that names the exception class and its message.
 */
module Wrappers {

  datatype Option<+T> = None | Some(value: T) {
    function GetOr(default: T): T {
      match this
      case Some(v) => v
      case None => default
    }
  }

  /** The exception classes the modelled services throw. */
  datatype HttpError =
    | BadRequest(message: string)
    | NotFound(message: string)
    | Conflict(message: string)
    | Forbidden(message: string)
    | Unauthorized(message: string)
    /** A plain `Error` (or a database error) without an HTTP status. */
    | Plain(message: string)
  {
    /** The HTTP status NestJS attaches to the exception, 0 when there is none. */
    function Status(): int {
      match this
      case BadRequest(_) => 400
      case Unauthorized(_) => 401
      case Forbidden(_) => 403
      case NotFound(_) => 404
      case Conflict(_) => 409
      case Plain(_) => 0
    }
  }

  datatype Result<+T> = Success(value: T) | Failure(error: HttpError) {
    predicate IsFailure() {
      Failure?
    }

    function PropagateFailure<U>(): Result<U>
      requires Failure?
    {
      Failure(error)
    }

    function Extract(): T
      requires Success?
    {
      value
    }
  }

  /**
   A step of a stateful operation: the state after the step together with
   what the caller observes. Used where the source writes and then throws,
   so that the write survives the failure.
   */
  datatype Step<S, T> = Step(next: S, result: Result<T>)
}
