/** Value wrappers shared by the backend and the frontend model. */
module Common {

  /** A value that may be absent: C#'s `null`, JavaScript's `null` or `undefined`. */
  datatype Option<+T> = None | Some(value: T) {
    /** JavaScript's `x ?? default` and C#'s `x ?? default`. */
    function GetOr(default: T): T
    {
      match this
      case Some(v) => v
      case None => default
    }
  }

  /** The outcome of a call into a collaborator that may throw: the AI and transcription services. */
  datatype Fallible<+T> = Success(value: T) | Failure(error: string)

  /** What an ASP.NET controller action hands back: `Ok(...)`, `BadRequest("...")`,
      `NotFound("...")`, a status the framework answers with its own problem-details
      JSON object (a failed model validation, or `NotFound()` without a value), or
      an exception that escaped the action (a 500 response). */
  datatype ActionResult<+T> =
    | Ok(body: T)
    | BadRequest(message: string)
    | NotFound(message: string)
    | Problem(status: nat)
    | ServerError(error: string)

  const BadRequestStatus: nat := 400
  const NotFoundStatus: nat := 404
}
