/** `useTranscriptAnalysis`: runs the detailed transcript analysis for one meeting
    and tracks it as idle, loading, success or error. */
module TranscriptAnalysisHook {
  import opened Common
  import opened HttpClient
  import MC = MeetingsController

  datatype Status = Idle | Loading | Succeeded | Failed

  const AnalyzeFallback: string := "Failed to analyze transcript"

  /** `!meetingId` is false: the id is present and not zero. */
  predicate HasMeeting(meetingId: Option<int>) {
    meetingId.Some? && meetingId.value != 0
  }

  class TranscriptAnalysisState {
    var status: Status
    var data: Option<MC.AnalyzeTranscriptResponse>
    var error: Option<string>

    /** Whatever order runs and resets interleave in: idle means nothing is held,
        a run in progress shows no error, success holds a result and a failure
        holds a message. */
    ghost predicate Valid()
      reads this
    {
      && (status == Idle ==> data.None? && error.None?)
      && (status == Loading ==> error.None?)
      && (status == Succeeded ==> data.Some?)
      && (status == Failed ==> error.Some?)
    }

    /** The `loading` flag the hook returns. */
    predicate IsLoading()
      reads this
    {
      status == Loading
    }

    constructor ()
      ensures Valid()
      ensures status == Idle && data.None? && error.None?
    {
      status, data, error := Idle, None, None;
    }

    /** `run` up to its request: nothing happens without a meeting id; otherwise
        the hook is loading with its error cleared and its last result kept. */
    method Run(meetingId: Option<int>) returns (started: bool)
      requires Valid()
      modifies this
      ensures Valid()
      ensures started <==> HasMeeting(meetingId)
      ensures started ==> status == Loading && error.None? && data == old(data)
      ensures !started ==> status == old(status) && data == old(data) && error == old(error)
    {
      if !HasMeeting(meetingId) {
        return false;
      }
      status := Loading;
      error := None;
      started := true;
    }

    /** `run` after its request: a result is stored and returned; a failure is
        reported with `getErrorMessage`'s text and `null` is returned, while the
        previous result stays in place. */
    method Complete(outcome: Outcome<MC.AnalyzeTranscriptResponse>) returns (r: Option<MC.AnalyzeTranscriptResponse>)
      requires Valid()
      modifies this
      ensures Valid()
      ensures outcome.Resolved? ==>
        r == Some(outcome.value) && data == r && status == Succeeded && error == old(error)
      ensures outcome.Rejected? ==>
        && r.None? && status == Failed && data == old(data)
        && error == Some(ErrorMessage(outcome.reason, AnalyzeFallback))
    {
      match outcome
      case Resolved(res) =>
        data := Some(res);
        status := Succeeded;
        r := Some(res);
      case Rejected(e) =>
        error := Some(ErrorMessage(e, AnalyzeFallback));
        status := Failed;
        r := None;
    }

    /** `reset`. */
    method Reset()
      requires Valid()
      modifies this
      ensures Valid()
      ensures status == Idle && data.None? && error.None?
    {
      status, data, error := Idle, None, None;
    }
  }
}
