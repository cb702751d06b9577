/** `useMeetingHub`: the client end of the analyse job. It starts the job with an
    HTTP POST and learns its progress and result only from the hub events. */
module MeetingHubClient {
  import opened Common
  import opened Text
  import opened Realtime
  import AC = AnalysisController
  import AnalysisService

  /** A `StepUpdate` payload as the hook keeps it. */
  datatype Step = Step(step: string, message: string)

  /** The state the hook exposes. */
  datatype HubView = HubView(
    isConnected: bool, isAnalyzing: bool, steps: seq<Step>,
    summary: Option<string>, actions: seq<string>, error: Option<string>)

  const Initial: HubView := HubView(false, false, [], None, [], None)

  const ConnectFailed: string := "Could not connect to realtime service."
  const StartFailed: string := "Failed to start analysis."

  /** The connection's `start()` settled: success marks the hook connected and
      clears the error; failure reports it and leaves the flag as it was. */
  function Connected(v: HubView, ok: bool): HubView {
    if ok then v.(isConnected := true, error := None) else v.(error := Some(ConnectFailed))
  }

  /** One hub event: a step is appended; a result sets summary and actions and
      ends the analysis. */
  function Receive(v: HubView, e: HubEvent): HubView {
    match e
    case StepUpdate(step, message) => v.(steps := v.steps + [Step(step, message)])
    case ResultReady(summary, actions) => v.(summary := Some(summary), actions := actions, isAnalyzing := false)
  }

  /** The events in the order they arrive. */
  function ReceiveAll(v: HubView, events: seq<HubEvent>): HubView {
    if events == [] then v else Receive(ReceiveAll(v, events[..|events| - 1]), events[|events| - 1])
  }

  /** The step payloads among the events, in order. */
  function StepsOf(events: seq<HubEvent>): (r: seq<Step>)
    ensures |r| <= |events|
  {
    if events == [] then []
    else
      var last := events[|events| - 1];
      StepsOf(events[..|events| - 1]) + (if last.StepUpdate? then [Step(last.step, last.message)] else [])
  }

  /** `text.trim()` is non-empty: the hook only posts such text. */
  predicate WouldStart(text: string) {
    Trim(text, IsJsWhiteSpace) != []
  }

  /** `startAnalysis` after its guard: analysing, with everything from the previous run cleared. */
  function Started(v: HubView): HubView {
    v.(isAnalyzing := true, error := None, steps := [], summary := None, actions := [])
  }

  /** The POST settled: success changes nothing (the result comes from the hub);
      failure reports it and ends the analysis. */
  function PostSettled(v: HubView, ok: bool): HubView {
    if ok then v else v.(error := Some(StartFailed), isAnalyzing := false)
  }

  /** Receiving events appends exactly their steps, never touches the connection
      flag or the error, and leaves the result alone when no result arrives. */
  lemma {:induction false} ReceiveAllEffect(v: HubView, events: seq<HubEvent>)
    ensures ReceiveAll(v, events).steps == v.steps + StepsOf(events)
    ensures ReceiveAll(v, events).isConnected == v.isConnected
    ensures ReceiveAll(v, events).error == v.error
    ensures CountResults(events) == 0 ==>
      ReceiveAll(v, events) == v.(steps := v.steps + StepsOf(events))
  {
    if events != [] {
      var init := events[..|events| - 1];
      ReceiveAllEffect(v, init);
      if events[|events| - 1].ResultReady? {
        assert CountResults(events) == CountResults(init) + 1;
      }
    }
  }

  lemma {:induction false} ReceiveAllAppend(v: HubView, a: seq<HubEvent>, b: seq<HubEvent>)
    ensures ReceiveAll(v, a + b) == ReceiveAll(ReceiveAll(v, a), b)
  {
    if b == [] {
      assert a + b == a;
    } else {
      ReceiveAllAppend(v, a, b[..|b| - 1]);
      assert (a + b)[..|a + b| - 1] == a + b[..|b| - 1];
    }
  }

  /** When the HTTP answer and the hub events race, the outcome is the same:
      a failed POST commutes with events that hold no result, and a successful
      POST commutes with any events. */
  lemma {:induction false} PostSettledCommutes(v: HubView, events: seq<HubEvent>, ok: bool)
    requires ok || CountResults(events) == 0
    ensures PostSettled(ReceiveAll(v, events), ok) == ReceiveAll(PostSettled(v, ok), events)
  {
    if !ok {
      ReceiveAllEffect(v, events);
      ReceiveAllEffect(PostSettled(v, ok), events);
    }
  }

  /** The client's view after one analyse job over `text`, when the hub events
      are delivered before the POST's answer. */
  function AfterJob(v: HubView, text: string, analyze: string -> Fallible<AnalysisService.Analysis>): HubView {
    PostSettled(ReceiveAll(Started(v), AC.AnalyzeBroadcasts(Some(text), analyze)),
                AC.AnalyzeSucceeds(Some(text), analyze))
  }

  /** End to end: a job the client starts always ends with the client no longer
      analysing and the connection flag untouched. On success it shows the three
      steps, the summary and the actions, with no error; when the analyser fails
      it shows the three steps and the start error; when the server finds the
      text blank it shows only the start error. */
  lemma AnalyzeJobEndToEnd(v: HubView, text: string, analyze: string -> Fallible<AnalysisService.Analysis>)
    ensures var f := AfterJob(v, text, analyze);
      && !f.isAnalyzing && f.isConnected == v.isConnected
      && (AC.AnalyzeSucceeds(Some(text), analyze) ==>
            && f.steps == [Step("ExtractTopics", "Detecting key topics..."), Step("Decisions", "Identifying decisions..."),
                           Step("Actions", "Generating action items...")]
            && f.summary == Some(analyze(text).value.summary) && f.actions == analyze(text).value.actions
            && f.error.None?)
      && (!IsNullOrWhiteSpace(Some(text)) && analyze(text).Failure? ==>
            && f.steps == [Step("ExtractTopics", "Detecting key topics..."), Step("Decisions", "Identifying decisions..."),
                           Step("Actions", "Generating action items...")]
            && f.summary.None? && f.actions == [] && f.error == Some(StartFailed))
      && (IsNullOrWhiteSpace(Some(text)) ==> f.steps == [] && f.summary.None? && f.error == Some(StartFailed))
  {
    var s := Started(v);
    var b := AC.AnalyzeBroadcasts(Some(text), analyze);
    if !IsNullOrWhiteSpace(Some(text)) {
      var steps := AC.AnalysisSteps;
      StepsHoldNoResult(steps);
      ReceiveAllEffect(s, steps);
      assert StepsOf(steps) == [Step("ExtractTopics", "Detecting key topics..."), Step("Decisions", "Identifying decisions..."),
                                Step("Actions", "Generating action items...")] by {
        var e1, e2 := [ExtractTopicsStep], [ExtractTopicsStep, DecisionsStep];
        assert e1[..0] == [];
        assert StepsOf(e1) == [Step("ExtractTopics", "Detecting key topics...")];
        assert e2[..1] == e1;
        assert StepsOf(e2) == [Step("ExtractTopics", "Detecting key topics..."), Step("Decisions", "Identifying decisions...")];
        assert steps[..2] == e2;
      }
      if analyze(text).Success? {
        var a := analyze(text).value;
        ReceiveAllAppend(s, steps, [ResultReady(a.summary, a.actions)]);
        assert [ResultReady(a.summary, a.actions)][..0] == [];
      }
    }
  }

  /** U+0085 is whitespace to .NET but not to JavaScript. */
  lemma NextLineBlankOnlyToServer()
    ensures WouldStart("\U{0085}") && IsNullOrWhiteSpace(Some("\U{0085}"))
  {
    TrimOfTrimmed("\U{0085}", IsJsWhiteSpace);
  }

  /** U+FEFF is whitespace to JavaScript but not to .NET. */
  lemma ByteOrderMarkBlankOnlyToClient()
    ensures !WouldStart("\U{FEFF}") && !IsNullOrWhiteSpace(Some("\U{FEFF}"))
  {
    TrimEmptyIffBlank("\U{FEFF}", IsJsWhiteSpace);
    assert !IsDotNetWhiteSpace("\U{FEFF}"[0]);
  }

  /** The client's blank test and the server's differ: a text made of U+0085 is
      posted and rejected, and the client shows the start error; a text made of
      U+FEFF is never posted although the server would accept it. */
  lemma BlankTestsDiffer(v: HubView, analyze: string -> Fallible<AnalysisService.Analysis>)
    ensures WouldStart("\U{0085}") && IsNullOrWhiteSpace(Some("\U{0085}"))
    ensures AfterJob(v, "\U{0085}", analyze).error == Some(StartFailed)
    ensures !WouldStart("\U{FEFF}") && !IsNullOrWhiteSpace(Some("\U{FEFF}"))
  {
    NextLineBlankOnlyToServer();
    ByteOrderMarkBlankOnlyToClient();
    AnalyzeJobEndToEnd(v, "\U{0085}", analyze);
  }

  /** The hook's state, updated in place by its handlers. */
  class MeetingHubState {
    var isConnected: bool
    var isAnalyzing: bool
    var steps: seq<Step>
    var summary: Option<string>
    var actions: seq<string>
    var error: Option<string>

    function View(): HubView
      reads this
    {
      HubView(isConnected, isAnalyzing, steps, summary, actions, error)
    }

    constructor ()
      ensures View() == Initial
    {
      isConnected, isAnalyzing, steps, summary, actions, error := false, false, [], None, [], None;
    }

    /** The `then` and `catch` of `connection.start()`. */
    method OnConnectionSettled(ok: bool)
      modifies this
      ensures View() == Connected(old(View()), ok)
    {
      if ok {
        isConnected := true;
        error := None;
      } else {
        error := Some(ConnectFailed);
      }
    }

    /** The `stepUpdate` handler. */
    method OnStepUpdate(step: string, message: string)
      modifies this
      ensures View() == Receive(old(View()), StepUpdate(step, message))
    {
      steps := steps + [Step(step, message)];
    }

    /** The `resultReady` handler. */
    method OnResultReady(s: string, a: seq<string>)
      modifies this
      ensures View() == Receive(old(View()), ResultReady(s, a))
    {
      summary := Some(s);
      actions := a;
      isAnalyzing := false;
    }

    /** `startAnalysis` up to the POST: blank text (by `trim()`) is ignored;
      otherwise the previous run is cleared and the POST is sent. */
    method StartAnalysis(text: string) returns (posted: bool)
      modifies this
      ensures posted <==> WouldStart(text)
      ensures View() == if posted then Started(old(View())) else old(View())
    {
      if Trim(text, IsJsWhiteSpace) == [] {
        return false;
      }
      isAnalyzing := true;
      error := None;
      steps := [];
      summary := None;
      actions := [];
      posted := true;
    }

    /** The POST's answer: its `catch` reports the failure and ends the analysis. */
    method OnPostSettled(ok: bool)
      modifies this
      ensures View() == PostSettled(old(View()), ok)
    {
      if !ok {
        error := Some(StartFailed);
        isAnalyzing := false;
      }
    }
  }
}
