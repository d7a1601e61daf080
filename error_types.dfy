/**
 * The AppError hierarchy of backend/src/util/errorTypes.ts, and the other
 * kinds of error that can reach the Express error handler.
 */
module ErrorTypes {
  import opened Wrappers

  // The http-status-codes constants the backend uses.
  const StatusBadRequest: int := 400
  const StatusUnauthorized: int := 401
  const StatusForbidden: int := 403
  const StatusNotFound: int := 404
  const StatusConflict: int := 409
  const StatusInternalServerError: int := 500

  /** An operational error with a fixed HTTP status code. */
  datatype AppError = AppError(message: string, statusCode: int, isOperational: bool)

  /** `new AppError(message, statusCode)`: `isOperational` defaults to true. */
  function NewAppError(message: string, statusCode: int): (e: AppError)
    ensures e.message == message && e.statusCode == statusCode && e.isOperational
  {
    AppError(message, statusCode, true)
  }

  function NotFoundError(message: string): (e: AppError)
    ensures e.message == message && e.statusCode == 404 && e.isOperational
  {
    NewAppError(message, StatusNotFound)
  }

  function BadRequestError(message: string): (e: AppError)
    ensures e.message == message && e.statusCode == 400 && e.isOperational
  {
    NewAppError(message, StatusBadRequest)
  }

  function UnauthorizedError(message: string): (e: AppError)
    ensures e.message == message && e.statusCode == 401 && e.isOperational
  {
    NewAppError(message, StatusUnauthorized)
  }

  function ForbiddenError(message: string): (e: AppError)
    ensures e.message == message && e.statusCode == 403 && e.isOperational
  {
    NewAppError(message, StatusForbidden)
  }

  /**
   * Anything a controller or handler can throw: an AppError, a Mongoose
   * ValidationError (one message per failing path), a Mongoose CastError
   * (a malformed ObjectId), or any other Error (a driver error carries a
   * `code` and, for a duplicate key, the names of the duplicated fields).
   */
  datatype Failure =
    | App(error: AppError)
    | ValidationFailure(model: string, errors: seq<string>)
    | CastFailure(model: string, path: string, value: string)
    | Thrown(name: string, message: string, code: Option<int>, keyFields: seq<string>)

  /** A plain `new Error(message)`, or a built-in error such as a TypeError. */
  function PlainError(name: string, message: string): (f: Failure)
    ensures f.Thrown? && f.code.None? && f.message == message
  {
    Thrown(name, message, None, [])
  }

  function JoinComma(xs: seq<string>): string
  {
    if xs == [] then "" else if |xs| == 1 then xs[0] else xs[0] + ", " + JoinComma(xs[1..])
  }

  /**
   * `error.message` of a failure, which the socket handlers forward to the
   * client. The wording of Mongoose's own messages is abbreviated.
   */
  function ErrorMessage(f: Failure): string
  {
    match f
    case App(e) => e.message
    case ValidationFailure(model, errors) => model + " validation failed: " + JoinComma(errors)
    case CastFailure(model, path, value) =>
      "Cast to ObjectId failed for value \"" + value + "\" at path \"" + path + "\" for model \"" + model + "\""
    case Thrown(_, message, _, _) => message
  }

  /** The four subclasses have distinct client-error statuses, so the status names the class. */
  lemma SubclassStatusesDistinct(m1: string, m2: string)
    ensures NotFoundError(m1).statusCode != BadRequestError(m2).statusCode
    ensures NotFoundError(m1).statusCode != UnauthorizedError(m2).statusCode
    ensures NotFoundError(m1).statusCode != ForbiddenError(m2).statusCode
    ensures BadRequestError(m1).statusCode != UnauthorizedError(m2).statusCode
    ensures BadRequestError(m1).statusCode != ForbiddenError(m2).statusCode
    ensures UnauthorizedError(m1).statusCode != ForbiddenError(m2).statusCode
  {
  }
}
