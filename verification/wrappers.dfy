/** Optional values, standing for Python's `None` and JavaScript's
    `undefined`/`null` wherever the storefront treats a field as optional. */
module Wrappers {

  datatype Option<+T> = None | Some(value: T) {

    /** The value, or `default` when absent. */
    function GetOr(default: T): T {
      match this
      case Some(v) => v
      case None => default
    }
  }
}

/** The HTTP outcome of a backend route: a value, or the error status the
    route raises with `HTTPException` (or that FastAPI's request validation
    raises before the route body runs). */
module Http {

  datatype Status =
    | BadRequest      // 400
    | Unauthorized    // 401
    | Forbidden       // 403
    | NotFound        // 404
    | Unprocessable   // 422, a request body or query that fails its schema
    | InternalError   // 500, an exception the route does not catch

  /** The numeric status code sent to the client. */
  function Code(s: Status): (c: int)
    ensures 400 <= c < 600
    ensures s == InternalError <==> c >= 500
  {
    match s
    case BadRequest => 400
    case Unauthorized => 401
    case Forbidden => 403
    case NotFound => 404
    case Unprocessable => 422
    case InternalError => 500
  }

  /** A route's result: its response value, or an error status with the
      `detail` text the client receives. */
  datatype Result<+T> = Ok(value: T) | Err(status: Status, detail: string)
}
