/**
 * The table that shows a gRPC status code as an HTTP status code.
 */
module GrpcCodes {
  import opened Wrappers

  /** HTTP-like code shown for each canonical gRPC status code. */
  const GrpcStatusToHttpTable: map<int, int> := map[
    0 := 200, 1 := 499, 2 := 500, 3 := 400, 4 := 504, 5 := 404, 6 := 409,
    7 := 403, 8 := 429, 9 := 400, 10 := 409, 11 := 400, 12 := 501,
    13 := 500, 14 := 503, 15 := 500, 16 := 401]

  /** `_grpc_status_to_http`: the table entry, 500 for a code not in it. */
  function GrpcStatusToHttp(code: int): (http: int)
    ensures 200 <= http <= 599
  {
    if code in GrpcStatusToHttpTable then GrpcStatusToHttpTable[code] else 500
  }

  /** The seventeen canonical gRPC status codes. */
  datatype GrpcStatus =
    | Ok | Cancelled | Unknown | InvalidArgument | DeadlineExceeded | NotFound
    | AlreadyExists | PermissionDenied | ResourceExhausted | FailedPrecondition
    | Aborted | OutOfRange | Unimplemented | Internal | Unavailable | DataLoss
    | Unauthenticated
  {
    /** The status's number on the wire. */
    function Code(): int {
      match this
      case Ok => 0 case Cancelled => 1 case Unknown => 2 case InvalidArgument => 3
      case DeadlineExceeded => 4 case NotFound => 5 case AlreadyExists => 6
      case PermissionDenied => 7 case ResourceExhausted => 8
      case FailedPrecondition => 9 case Aborted => 10 case OutOfRange => 11
      case Unimplemented => 12 case Internal => 13 case Unavailable => 14
      case DataLoss => 15 case Unauthenticated => 16
    }

    /** The HTTP status that describes the same kind of outcome. */
    function HttpEquivalent(): int {
      match this
      case Ok => 200
      case Cancelled => 499
      case Unknown | Internal | DataLoss => 500
      case InvalidArgument | FailedPrecondition | OutOfRange => 400
      case DeadlineExceeded => 504
      case NotFound => 404
      case AlreadyExists | Aborted => 409
      case PermissionDenied => 403
      case ResourceExhausted => 429
      case Unimplemented => 501
      case Unavailable => 503
      case Unauthenticated => 401
    }
  }

  /** The status with number `code`, if `code` is canonical. */
  function StatusOf(code: int): (s: Option<GrpcStatus>)
    ensures s.Some? <==> 0 <= code <= 16
    ensures s.Some? ==> s.value.Code() == code
  {
    if code == 0 then Some(Ok) else if code == 1 then Some(Cancelled)
    else if code == 2 then Some(Unknown) else if code == 3 then Some(InvalidArgument)
    else if code == 4 then Some(DeadlineExceeded) else if code == 5 then Some(NotFound)
    else if code == 6 then Some(AlreadyExists) else if code == 7 then Some(PermissionDenied)
    else if code == 8 then Some(ResourceExhausted) else if code == 9 then Some(FailedPrecondition)
    else if code == 10 then Some(Aborted) else if code == 11 then Some(OutOfRange)
    else if code == 12 then Some(Unimplemented) else if code == 13 then Some(Internal)
    else if code == 14 then Some(Unavailable) else if code == 15 then Some(DataLoss)
    else if code == 16 then Some(Unauthenticated) else None
  }

  /** The table gives every canonical status its HTTP equivalent and every
      other number 500. `HttpEquivalent` is the same table written per
      status, so this lemma ties the numeric table to the named statuses;
      `StatusTableSeverity` is the property with content of its own. */
  lemma StatusTableMatchesCanonicalCodes(code: int)
    ensures StatusOf(code).Some? ==> GrpcStatusToHttp(code) == StatusOf(code).value.HttpEquivalent()
    ensures StatusOf(code).None? ==> GrpcStatusToHttp(code) == 500
  {
  }

  /** Only OK reads as a success; every other code reads as a client or
      server error. */
  lemma StatusTableSeverity(code: int)
    ensures GrpcStatusToHttp(code) == 200 <==> code == 0
    ensures code != 0 ==> 400 <= GrpcStatusToHttp(code) <= 599
  {
  }

  lemma StatusTableExamples()
    ensures GrpcStatusToHttp(5) == 404
    ensures GrpcStatusToHttp(16) == 401
    ensures GrpcStatusToHttp(99) == 500
  {
  }
}
