/**
 * The exceptions of the application and GlobalExceptionHandler, which turns each
 * exception that escapes a controller into an HTTP status and a response body.
 */
module Errors {

  /** The exception classes the model raises or the handler names. */
  datatype Kind =
    | DataBaseOperation          // DataBaseOperationException
    | DataAccess                 // DataAccessException, e.g. a unique-constraint violation
    | MethodArgumentNotValid
    | HttpMessageNotReadable
    | InvalidDataAccessApiUsage  // subclass of DataAccessException with a handler of its own
    | BadCredentials
    | MalformedJwt
    | AccessDenied
    | UserNotFound
    | TaskNotFound
    | ExpiredJwt                 // thrown by the JWT parser; no dedicated handler
    | SignatureInvalid           // thrown by the JWT parser; no dedicated handler
    | IllegalArgument            // the JWT parser refusing blank text; no dedicated handler
    | UsernameNotFound           // Spring Security's UsernameNotFoundException
    | Runtime                    // a plain RuntimeException

  datatype Exception = Exception(kind: Kind, message: string)

  /** What a handler method puts into its ResponseEntity. */
  datatype ErrorResponse = ErrorResponse(status: int, body: string)

  const OK := 200
  const BAD_REQUEST := 400
  const UNAUTHORIZED := 401
  const FORBIDDEN := 403
  const NOT_FOUND := 404
  const INTERNAL_SERVER_ERROR := 500

  /** The handler method chosen for an exception: the most specific class wins. */
  function Handle(ex: Exception): (r: ErrorResponse)
    ensures r.status == UNAUTHORIZED <==> ex.kind == BadCredentials || ex.kind == MalformedJwt
    ensures r.status == FORBIDDEN <==> ex.kind == AccessDenied
    ensures r.status == NOT_FOUND <==> ex.kind == UserNotFound || ex.kind == TaskNotFound
    ensures r.status == BAD_REQUEST <==>
      ex.kind == MethodArgumentNotValid || ex.kind == HttpMessageNotReadable || ex.kind == InvalidDataAccessApiUsage
    ensures r.status in {BAD_REQUEST, UNAUTHORIZED, FORBIDDEN, NOT_FOUND, INTERNAL_SERVER_ERROR}
    ensures |ex.message| <= |r.body| && r.body[|r.body| - |ex.message|..] == ex.message
  {
    match ex.kind
    case DataBaseOperation => ErrorResponse(INTERNAL_SERVER_ERROR, ex.message)
    case DataAccess => ErrorResponse(INTERNAL_SERVER_ERROR, "Database error: " + ex.message)
    case MethodArgumentNotValid => ErrorResponse(BAD_REQUEST, ex.message)
    case HttpMessageNotReadable => ErrorResponse(BAD_REQUEST, ex.message)
    case InvalidDataAccessApiUsage => ErrorResponse(BAD_REQUEST, ex.message)
    case BadCredentials => ErrorResponse(UNAUTHORIZED, ex.message)
    case MalformedJwt => ErrorResponse(UNAUTHORIZED, ex.message)
    case AccessDenied => ErrorResponse(FORBIDDEN, ex.message)
    case UserNotFound => ErrorResponse(NOT_FOUND, ex.message)
    case TaskNotFound => ErrorResponse(NOT_FOUND, ex.message)
    case _ => ErrorResponse(INTERNAL_SERVER_ERROR, "Unexpected error: " + ex.message)
  }

  /** Database failures and every exception without a handler of its own are server errors. */
  lemma UnhandledKindsAreServerErrors(ex: Exception)
    requires ex.kind in {DataBaseOperation, DataAccess, ExpiredJwt, SignatureInvalid, IllegalArgument, UsernameNotFound, Runtime}
    ensures Handle(ex).status == INTERNAL_SERVER_ERROR
  {
  }

  /** What a controller method produces: a ResponseEntity, or an exception for the handler. */
  datatype Reply<+T> = Returned(status: int, body: T) | Raised(error: Exception)

  /** The status the client sees for a controller's reply. */
  function StatusOf<T>(reply: Reply<T>): (status: int)
    ensures reply.Raised? ==> status == Handle(reply.error).status
    ensures reply.Returned? ==> status == reply.status
  {
    match reply
    case Returned(s, _) => s
    case Raised(e) => Handle(e).status
  }

  /** Java's Long.toString, used in the messages that name an id. */
  function LongToString(n: int): (s: string)
    ensures |s| > 0
  {
    if n < 0 then "-" + NatToString(-n) else NatToString(n)
  }

  function NatToString(n: nat): (s: string)
    ensures |s| > 0
    ensures forall i | 0 <= i < |s| :: '0' <= s[i] <= '9'
  {
    if n < 10 then [Digit(n)] else NatToString(n / 10) + [Digit(n % 10)]
  }

  function Digit(d: nat): (c: char)
    requires d < 10
    ensures '0' <= c <= '9'
  {
    ['0', '1', '2', '3', '4', '5', '6', '7', '8', '9'][d]
  }
}
