/** Errors carry only what callers can branch on: the kind, the numeric PLC code
    and whether the session survived. */
module Errors {
  datatype ErrorKind =
    | InvalidArgument
    | NotConnected
    | Timeout
    | Canceled
    | Transport
    | Protocol
    | Plc
    | Limit
    | Closed

  datatype SessionImpact = Unchanged | Broken

  datatype Error = Error(kind: ErrorKind, code: nat, returnCode: nat, impact: SessionImpact)

  function NewError(kind: ErrorKind, impact: SessionImpact): Error {
    Error(kind, 0, 0, impact)
  }

  datatype Option<+T> = None | Some(value: T)

  datatype Result<+T> = Ok(value: T) | Err(error: Error)

  /** A check that returns Go's `error`: nil or a value. */
  datatype Outcome = Pass | Fail(error: Error)

  function InvalidError(): Error {
    NewError(InvalidArgument, Unchanged)
  }

  function LimitError(): Error {
    NewError(Limit, Unchanged)
  }

  /** A malformed reply of the peer: the session is given up. */
  function ProtocolError(): Error {
    NewError(Protocol, Broken)
  }

  /** A failure of the local encoder or planner: a bug, not a session failure. */
  function InvariantError(): Error {
    NewError(Protocol, Unchanged)
  }

  /** The controller refused the whole request. */
  function PlcError(code: nat): Error {
    Error(Plc, code, 0, Unchanged)
  }

  /** The controller refused one item. */
  function PlcItemError(returnCode: nat): Error {
    Error(Plc, returnCode, returnCode, Unchanged)
  }

  /** The error a caller passes on. */
  function ErrorOf<T>(result: Result<T>): Error {
    match result
    case Ok(_) => InvariantError()
    case Err(error) => error
  }

  /** Errors of the local planner and encoder: none of these may end an operation that has
      sent anything. */
  predicate LocalError(error: Error) {
    error.impact == Unchanged && (error.kind == ErrorKind.Protocol || error.kind == Limit)
  }
}
