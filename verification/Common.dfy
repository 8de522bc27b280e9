/** Results, errors and optional values shared by every component. */
module Common {

  datatype Option<+T> = None | Some(value: T)

  /** include/lx/domain/Error.h: the code is kept, the message text is not. */
  datatype ErrorCode =
    | InvalidArgument
    | NotFound
    | PermissionDenied
    | Unsupported
    | Unavailable
    | IoError
    | ProtocolError
    | ParseError
    | OperationFailed
    | Timeout
    | Conflict
    | Interrupted

  /** `partial` stands for the prefix "Port release was partially signaled". */
  datatype Error = Error(code: ErrorCode, partial: bool)

  datatype Result<+T> = Success(value: T) | Failure(error: Error)

  /** What an operating-system facility answers. */
  datatype Reply<+T> = Ok(value: T) | Err(code: ErrorCode)

  function Fail<T>(code: ErrorCode): Result<T> {
    Failure(Error(code, false))
  }

  /** The warning a failed answer leaves behind. */
  function CodesOf<T>(reply: Reply<T>): seq<ErrorCode> {
    if reply.Err? then [reply.code] else []
  }

  /** Some element: hash containers are walked in no particular order. */
  method Any<T>(s: set<T>) returns (x: T)
    requires s != {}
    ensures x in s
  {
    x :| x in s;
  }

  const MAX_UINT64: nat := 0xFFFF_FFFF_FFFF_FFFF
  const MAX_INT32: nat := 0x7FFF_FFFF
}
