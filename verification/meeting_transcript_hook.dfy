/** `useMeetingTranscript`: loads the transcript of one meeting, where "no
    transcript" arrives as `null` rather than as an error. */
module MeetingTranscriptHook {
  import opened Common
  import opened HttpClient
  import MC = MeetingsController

  const LoadFallback: string := "Failed to load transcript"

  /** The hook's own error text: an `Error`'s message as it is, even when empty;
      any other thrown value as `String(e)`, or the fallback when that is empty. */
  function LoadErrorMessage(e: Thrown): (m: string)
    ensures !e.OtherValue? ==> m == e.message
    ensures e.OtherValue? ==> m != [] && (e.text != [] ==> m == e.text)
    ensures e.OtherValue? && e.text == [] ==> m == LoadFallback
  {
    match e
    case AxiosFailure(_, _, _, message) => message
    case ErrorObject(message) => message
    case OtherValue(text) => if text == [] then LoadFallback else text
  }

  /** The hook ignores the server's body: for a rejected response it shows
      axios's own status message, where `getErrorMessage` would show the body.
      This is a contrast between the two helpers, shown on a 400: the transcript
      endpoint itself answers only 200 or 404, and the 404 arrives as `null`.
      On a host outside Development a server error reaches the hook as no
      response at all, and both helpers then show "Network Error". */
  lemma LoadErrorIgnoresServerText(message: string, fallback: string, error: string)
    ensures LoadErrorMessage(Serve<MC.TranscriptResponse>(BadRequest(message)).reason)
         == StatusMessage(BadRequestStatus)
    ensures ErrorMessage(Serve<MC.TranscriptResponse>(BadRequest(message)).reason, fallback) == message
    ensures LoadErrorMessage(Serve<MC.TranscriptResponse>(ServerError(error)).reason) == NetworkErrorMessage
    ensures ErrorMessage(Serve<MC.TranscriptResponse>(ServerError(error)).reason, fallback) == NetworkErrorMessage
  {
  }

  /** `!meetingId` is false: the id is present and not zero. */
  predicate HasMeeting(meetingId: Option<int>) {
    meetingId.Some? && meetingId.value != 0
  }

  class MeetingTranscriptState {
    var data: Option<MC.TranscriptResponse>
    var loading: bool
    var error: Option<string>

    constructor ()
      ensures data.None? && !loading && error.None?
    {
      data, loading, error := None, false, None;
    }

    /** `refresh` up to its request: nothing happens without a meeting id;
        otherwise loading, with the error cleared and the data kept. */
    method Refresh(meetingId: Option<int>) returns (started: bool)
      modifies this
      ensures started <==> HasMeeting(meetingId)
      ensures started ==> loading && error.None? && data == old(data)
      ensures !started ==> loading == old(loading) && error == old(error) && data == old(data)
    {
      if !HasMeeting(meetingId) {
        return false;
      }
      loading := true;
      error := None;
      started := true;
    }

    /** `refresh` after `fetchMeetingTranscript` settles: the body, or `null` for
        "no transcript", replaces the data; a failure clears the data and reports
        its message; loading ends either way. */
    method Settle(outcome: Outcome<Option<MC.TranscriptResponse>>)
      modifies this
      ensures !loading
      ensures outcome.Resolved? ==> data == outcome.value && error == old(error)
      ensures outcome.Rejected? ==> data.None? && error == Some(LoadErrorMessage(outcome.reason))
    {
      if outcome.Resolved? {
        data := outcome.value;
      } else {
        error := Some(LoadErrorMessage(outcome.reason));
        data := None;
      }
      loading := false;
    }
  }
}
