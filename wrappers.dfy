/** Option and Result values used in place of Python's None and raised HTTPExceptions. */
module Wrappers {

  datatype Option<+T> = None | Some(value: T)

  /** The HTTP failures the handlers raise: 400, 404 and 409 as HTTPException,
      500 for an uncaught Python error (AttributeError, pydantic ValidationError). */
  datatype HttpError = BadRequest | NotFound | Conflict | InternalError

  datatype Result<+T> = Ok(value: T) | Err(error: HttpError)

  function StatusCode(e: HttpError): (code: int)
    ensures 400 <= code < 600
    ensures e == InternalError <==> code == 500
  {
    match e
    case BadRequest => 400
    case NotFound => 404
    case Conflict => 409
    case InternalError => 500
  }
}
