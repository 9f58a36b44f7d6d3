/** `ResponseError` of Sources/Errors.swift: the non-OK gRPC status codes, each
    carrying the server's message, and the failable initialiser from a numeric
    code. */
module Errors {
  import opened Wrappers

  datatype ResponseError =
    | Canceled(message: string)
    | Unknown(message: string)
    | InvalidArgument(message: string)
    | DeadlineExceeded(message: string)
    | NotFound(message: string)
    | AlreadyExists(message: string)
    | PermissionDenied(message: string)
    | Unauthenticated(message: string)
    | ResourceExhausted(message: string)
    | FailedPrecondition(message: string)
    | Aborted(message: string)
    | OutOfRange(message: string)
    | Unimplemented(message: string)
    | Internal(message: string)
    | Unavailable(message: string)
    | DataLoss(message: string)

  /** The gRPC status code each case stands for. */
  function StatusCode(e: ResponseError): (c: int)
    ensures 1 <= c <= 16
  {
    match e
    case Canceled(_) => 1
    case Unknown(_) => 2
    case InvalidArgument(_) => 3
    case DeadlineExceeded(_) => 4
    case NotFound(_) => 5
    case AlreadyExists(_) => 6
    case PermissionDenied(_) => 7
    case ResourceExhausted(_) => 8
    case FailedPrecondition(_) => 9
    case Aborted(_) => 10
    case OutOfRange(_) => 11
    case Unimplemented(_) => 12
    case Internal(_) => 13
    case Unavailable(_) => 14
    case DataLoss(_) => 15
    case Unauthenticated(_) => 16
  }

  /** `init?(code:message:)`: codes 1 to 16 give the case of that status with the
      message; every other code, 0 (OK) among them, gives nil. */
  function FromCode(code: int, message: string): (r: Option<ResponseError>)
    ensures r.Some? <==> 1 <= code <= 16
    ensures r.Some? ==> r.value.message == message && StatusCode(r.value) == code
  {
    if code == 1 then Some(Canceled(message))
    else if code == 2 then Some(Unknown(message))
    else if code == 3 then Some(InvalidArgument(message))
    else if code == 4 then Some(DeadlineExceeded(message))
    else if code == 5 then Some(NotFound(message))
    else if code == 6 then Some(AlreadyExists(message))
    else if code == 7 then Some(PermissionDenied(message))
    else if code == 16 then Some(Unauthenticated(message))
    else if code == 8 then Some(ResourceExhausted(message))
    else if code == 9 then Some(FailedPrecondition(message))
    else if code == 10 then Some(Aborted(message))
    else if code == 11 then Some(OutOfRange(message))
    else if code == 12 then Some(Unimplemented(message))
    else if code == 13 then Some(Internal(message))
    else if code == 14 then Some(Unavailable(message))
    else if code == 15 then Some(DataLoss(message))
    else None
  }

  /** Two errors with the same code and message are the same error. */
  lemma StatusCodeInjective(a: ResponseError, b: ResponseError)
    ensures StatusCode(a) == StatusCode(b) && a.message == b.message <==> a == b
  {
  }


  /** Every error is built by the initialiser from its own code and message. */
  lemma FromStatusCode(e: ResponseError)
    ensures FromCode(StatusCode(e), e.message) == Some(e)
  {
  }

}
