/** The HTTP boundary as the React client sees it: an axios call either resolves
    with the response body or rejects with a thrown value, and ASP.NET turns each
    controller result into a status code. */
module HttpClient {
  import opened Common
  import opened Text

  /** What a rejected call throws. `AxiosFailure` is an `AxiosError` (itself an
      `Error`): the response status if there was a response, `response.data.message`
      and `response.data` when they are strings, and the error's own `message`.
      `ErrorObject` is any other `Error`; `OtherValue` is a thrown non-`Error`,
      kept as `String(e)`. */
  datatype Thrown =
    | AxiosFailure(status: Option<int>, dataMessage: Option<string>, data: Option<string>, message: string)
    | ErrorObject(message: string)
    | OtherValue(text: string)

  datatype Outcome<+T> = Resolved(value: T) | Rejected(reason: Thrown)

  /** `getErrorMessage(error, fallback)`: for an axios error the first present of
      `response.data.message`, `response.data` and `message`; for another `Error`
      its message; for anything else the fallback. */
  function ErrorMessage(e: Thrown, fallback: string): string {
    match e
    case AxiosFailure(_, dataMessage, data, message) =>
      if dataMessage.Some? then dataMessage.value else if data.Some? then data.value else message
    case ErrorObject(message) => message
    case OtherValue(_) => fallback
  }

  /** The fallback is used exactly for thrown values that are not `Error`s, and a
      server body, when there is one, wins over the generic axios message. */
  lemma ErrorMessageSources(e: Thrown, fallback: string)
    ensures e.OtherValue? ==> ErrorMessage(e, fallback) == fallback
    ensures e.ErrorObject? ==> ErrorMessage(e, fallback) == e.message
    ensures e.AxiosFailure? && e.dataMessage.Some? ==> ErrorMessage(e, fallback) == e.dataMessage.value
    ensures e.AxiosFailure? && e.dataMessage.None? && e.data.Some? ==> ErrorMessage(e, fallback) == e.data.value
    ensures e.AxiosFailure? && e.dataMessage.None? && e.data.None? ==> ErrorMessage(e, fallback) == e.message
    ensures (forall f :: ErrorMessage(e, f) == ErrorMessage(e, fallback)) <==> !e.OtherValue?
  {
    if e.OtherValue? {
      assert ErrorMessage(e, fallback + "!") != ErrorMessage(e, fallback);
    }
  }

  /** Axios's message for a response outside the 2xx range. */
  function StatusMessage(status: nat): string {
    "Request failed with status code " + NatToString(status)
  }

  /** What axios reports when the browser withholds the response. */
  const NetworkErrorMessage: string := "Network Error"

  /** How a controller result reaches the client: `Ok` resolves with the body;
      `BadRequest` and `NotFound` reject with their status, carrying their text as
      a plain-text body; a problem-details answer rejects with its status and a
      JSON object body, which `data` does not hold. On a host outside Development
      an unhandled exception gets the server's bare 500, whose headers are reset
      and whose pending header callbacks are dropped: the CORS header the default
      policy adds is lost, the browser withholds the cross-origin response, and
      axios rejects with no response and "Network Error". */
  function Serve<T>(r: ActionResult<T>): (o: Outcome<T>)
    ensures o.Resolved? <==> r.Ok?
    ensures r.Ok? ==> o.value == r.body
    ensures o.Rejected? ==> o.reason.AxiosFailure? && o.reason.dataMessage.None?
    ensures o.Rejected? ==> (o.reason.status.None? <==> r.ServerError?)
    ensures r.BadRequest? ==> o.reason.status == Some(BadRequestStatus as int) && o.reason.data == Some(r.message)
    ensures r.NotFound? ==> o.reason.status == Some(NotFoundStatus as int) && o.reason.data == Some(r.message)
    ensures r.Problem? ==> o.reason.status == Some(r.status as int)
    ensures r.ServerError? ==> o.reason.data.None? && o.reason.message == NetworkErrorMessage
  {
    match r
    case Ok(body) => Resolved(body)
    case BadRequest(message) =>
      Rejected(AxiosFailure(Some(BadRequestStatus), None, Some(message), StatusMessage(BadRequestStatus)))
    case NotFound(message) =>
      Rejected(AxiosFailure(Some(NotFoundStatus), None, Some(message), StatusMessage(NotFoundStatus)))
    case Problem(status) =>
      Rejected(AxiosFailure(Some(status), None, None, StatusMessage(status)))
    case ServerError(_) =>
      Rejected(AxiosFailure(None, None, None, NetworkErrorMessage))
  }

  /** The client shows the server's own text for a rejected 400 or 404. On a host
      outside Development a server error never reaches it as a response, so it
      shows axios's "Network Error" whatever the fallback. */
  lemma ServedRejectionMessage<T>(r: ActionResult<T>, fallback: string)
    ensures r.BadRequest? ==> ErrorMessage(Serve(r).reason, fallback) == r.message
    ensures r.NotFound? ==> ErrorMessage(Serve(r).reason, fallback) == r.message
    ensures r.ServerError? ==> ErrorMessage(Serve(r).reason, fallback) == NetworkErrorMessage
  {
  }
}
