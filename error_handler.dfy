/**
 * errorHandler of backend/src/api/middlewares/errorHandlerMiddleware.ts:
 * an ordered classification of a failure into the status and JSON body
 * written with `res.status(...).json(...)`.
 */
module ErrorHandler {
  import opened Wrappers
  import opened ErrorTypes

  /** The JSON body `{ status: 'error', message, errors? }`. */
  datatype ErrorBody = ErrorBody(status: string, message: string, errors: Option<seq<string>>)

  datatype ErrorResponse = ErrorResponse(statusCode: int, body: ErrorBody)

  const DuplicateKeyCode: int := 11000
  const GenericMessage: string := "Something went wrong"

  /** A MongoServerError with code 11000 (a unique index violation). */
  predicate IsDuplicateKey(f: Failure)
  {
    f.Thrown? && f.name == "MongoServerError" && f.code == Some(DuplicateKeyCode)
  }

  /** Neither an AppError, a validation or cast error, nor a duplicate key. */
  predicate IsUnclassified(f: Failure)
  {
    f.Thrown? && !IsDuplicateKey(f)
  }

  /** `Object.keys(keyValue)[0]`, which is `undefined` for an empty key list. */
  function FirstKey(keys: seq<string>): string
  {
    if keys == [] then "undefined" else keys[0]
  }

  function HandleError(err: Failure, production: bool): (r: ErrorResponse)
    ensures r.body.status == "error"
    ensures r.body.errors.Some? <==> err.ValidationFailure?
    ensures err.App? ==> r.statusCode == err.error.statusCode && r.body.message == err.error.message
    ensures err.ValidationFailure? ==>
      r.statusCode == StatusBadRequest && r.body.message == "Validation Error" && r.body.errors == Some(err.errors)
    ensures err.CastFailure? ==>
      r.statusCode == StatusBadRequest && r.body.message == "Invalid " + err.path + ": " + err.value
    ensures IsDuplicateKey(err) ==>
      && r.statusCode == StatusConflict
      && r.body.message == "Duplicate value for " + FirstKey(err.keyFields) + ". This " + FirstKey(err.keyFields) + " is already in use."
    ensures !err.App? ==> (r.statusCode == StatusInternalServerError <==> IsUnclassified(err))
    ensures IsUnclassified(err) ==> r.body.message == (if production then GenericMessage else err.message)
  {
    match err
    case App(e) => ErrorResponse(e.statusCode, ErrorBody("error", e.message, None))
    case ValidationFailure(_, errors) => ErrorResponse(StatusBadRequest, ErrorBody("error", "Validation Error", Some(errors)))
    case CastFailure(_, path, value) => ErrorResponse(StatusBadRequest, ErrorBody("error", "Invalid " + path + ": " + value, None))
    case Thrown(_, message, _, keys) =>
      if IsDuplicateKey(err) then
        var field := FirstKey(keys);
        ErrorResponse(StatusConflict, ErrorBody("error", "Duplicate value for " + field + ". This " + field + " is already in use.", None))
      else
        ErrorResponse(StatusInternalServerError, ErrorBody("error", if production then GenericMessage else message, None))
  }

  /**
   * Each AppError subclass reaches the client with its own status and its
   * own message, in production as well.
   */
  lemma SubclassesReachClient(m: string, production: bool)
    ensures HandleError(App(NotFoundError(m)), production) == ErrorResponse(404, ErrorBody("error", m, None))
    ensures HandleError(App(BadRequestError(m)), production) == ErrorResponse(400, ErrorBody("error", m, None))
    ensures HandleError(App(UnauthorizedError(m)), production) == ErrorResponse(401, ErrorBody("error", m, None))
    ensures HandleError(App(ForbiddenError(m)), production) == ErrorResponse(403, ErrorBody("error", m, None))
  {
  }

  /** In production the text of an unclassified error never reaches the client. */
  lemma ProductionHidesInternalErrors(name: string, message: string, code: Option<int>, keys: seq<string>)
    requires code != Some(DuplicateKeyCode)
    ensures HandleError(Thrown(name, message, code, keys), true) ==
      ErrorResponse(500, ErrorBody("error", GenericMessage, None))
  {
  }
}
