/**
 * The Express error handler (`middleware/errorHandler.ts`): which status and
 * which message a thrown error turns into. The environment test
 * (`NODE_ENV === 'production'`) is a parameter; logging is left out.
 */
module ErrorHandler {
  import opened Wrappers
  import opened Schema

  const InternalServerError: string := "Internal Server Error"

  /** The JSON body `{ success: false, error }` sent with `status`. */
  datatype ErrorResponse = ErrorResponse(status: int, success: bool, error: string)

  /** An error with a `statusCode` below 500 is one of the services' own. */
  predicate IsKnownError(statusCode: Option<int>) {
    statusCode.Some? && statusCode.value < 500
  }

  /** `errorHandler` for an error with optional `statusCode` and `message`. */
  function HandleError(statusCode: Option<int>, message: string, production: bool): (r: ErrorResponse)
    ensures !r.success
    ensures statusCode.Some? ==> r.status == statusCode.value
    ensures statusCode.None? ==> r.status == 500
    ensures IsKnownError(statusCode) ==> r.error == message
    ensures !IsKnownError(statusCode) && production ==> r.error == InternalServerError
    ensures !production ==> r.error == message
  {
    var status := if statusCode.Some? then statusCode.value else 500;
    var exposed := if IsKnownError(statusCode) then message
      else if production then InternalServerError
      else message;
    ErrorResponse(status, false, exposed)
  }

  /** In production a 5xx response never carries the error's own message (unless that message is the generic one). */
  lemma NoLeakInProduction(statusCode: Option<int>, message: string)
    requires message != InternalServerError
    ensures HandleError(statusCode, message, true).status >= 500 ==>
      HandleError(statusCode, message, true).error == InternalServerError
    ensures HandleError(statusCode, message, true).error == message <==> IsKnownError(statusCode)
  {
  }

  /** A service failure as the error object the handler receives: database errors carry no `statusCode`. */
  function StatusOf(f: Failure): Option<int> {
    match f
    case AppError(code, _) => Some(code)
    case DbError(_) => None
  }

  function MessageOf(f: Failure): string {
    match f
    case AppError(_, m) => m
    case DbError(reason) => reason
  }

  /** The response a service failure produces. */
  function FailureResponse(f: Failure, production: bool): (r: ErrorResponse)
    ensures f.AppError? && f.statusCode < 500 ==> r == ErrorResponse(f.statusCode, false, f.message)
    ensures f.DbError? ==> r.status == 500 && (production ==> r.error == InternalServerError)
  {
    HandleError(StatusOf(f), MessageOf(f), production)
  }

  /** The 400, 401, 403 and 404 errors the services raise reach the client with their own text. */
  lemma ServiceErrorsExposed(code: int, message: string, production: bool)
    requires code in {400, 401, 403, 404}
    ensures FailureResponse(AppError(code, message), production) == ErrorResponse(code, false, message)
  {
  }
}
