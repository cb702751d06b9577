/** `MeetingsController`: creating meetings, replacing a meeting's transcript from
    an audio upload (with automatic titling), the two analysis jobs over a stored
    transcript, and the history read models. */
module MeetingsController {
  import opened Common
  import opened Text
  import opened Ordering
  import opened Realtime
  import opened Store
  import opened AnalysisService
  import AC = AnalysisController

  const DemoUser: string := "demo-user"

  /** The title a meeting gets when none is given, and the one auto-titling replaces. */
  const NewMeetingTitle: string := "New meeting"

  // ---------------------------------------------------------------------------
  // Titles

  /** The title `Create` stores: the trimmed request title, or `"New meeting"`
      when it is missing or blank. */
  function CreateTitle(title: Option<string>): string {
    if IsNullOrWhiteSpace(title) then NewMeetingTitle else Trim(title.value, IsDotNetWhiteSpace)
  }

  /** The default title is not blank, has no surrounding whitespace and is left
      unchanged by trimming. */
  lemma NewMeetingTitleIsTrimmed()
    ensures !IsNullOrWhiteSpace(Some(NewMeetingTitle))
    ensures Trimmed(NewMeetingTitle, IsDotNetWhiteSpace)
    ensures Trim(NewMeetingTitle, IsDotNetWhiteSpace) == NewMeetingTitle
  {
    var t := NewMeetingTitle;
    assert !IsDotNetWhiteSpace(t[0]) && !IsDotNetWhiteSpace(t[|t| - 1]);
    NotAllWhite(t, IsDotNetWhiteSpace, 0);
    TrimOfTrimmed(t, IsDotNetWhiteSpace);
  }

  /** A stored title is never blank and never carries surrounding whitespace, and
      normalising it again changes nothing. */
  lemma CreateTitleShape(title: Option<string>)
    ensures !IsNullOrWhiteSpace(Some(CreateTitle(title)))
    ensures Trimmed(CreateTitle(title), IsDotNetWhiteSpace)
    ensures !IsNullOrWhiteSpace(title) ==> CreateTitle(title) == Trim(title.value, IsDotNetWhiteSpace)
    ensures CreateTitle(Some(CreateTitle(title))) == CreateTitle(title)
  {
    if IsNullOrWhiteSpace(title) {
      NewMeetingTitleIsTrimmed();
    } else {
      TrimOfNonBlank(title.value, IsDotNetWhiteSpace);
    }
  }

  /** `isDefaultTitle`: blank, or `"New meeting"` up to surrounding whitespace and case. */
  predicate IsDefaultTitle(title: string) {
    IsNullOrWhiteSpace(Some(title)) || EqualsIgnoreCase(Trim(title, IsDotNetWhiteSpace), NewMeetingTitle)
  }

  /** A meeting created without a title is open to auto-titling; one created with a
      title is open to it exactly when that title reads "New meeting" in some casing. */
  lemma CreatedTitleIsDefaultIff(title: Option<string>)
    ensures IsDefaultTitle(CreateTitle(title)) <==>
      IsNullOrWhiteSpace(title) || EqualsIgnoreCase(Trim(title.value, IsDotNetWhiteSpace), NewMeetingTitle)
  {
    if IsNullOrWhiteSpace(title) {
      NewMeetingTitleIsTrimmed();
      EqualsIgnoreCaseEquivalence(NewMeetingTitle, NewMeetingTitle, NewMeetingTitle);
    } else {
      TrimOfNonBlank(title.value, IsDotNetWhiteSpace);
    }
  }

  /** How much of the transcript the title generator is given. */
  const TitleInputLength: nat := 2000

  /** The meeting's title after an upload whose transcript text is `text`. Only a
      default title is replaced, only for a non-blank transcript, and only by a
      non-blank generated title, trimmed; a failing generator is ignored. */
  function AutoTitle(title: string, text: string, generateTitle: string -> Fallible<Option<string>>): string {
    if IsDefaultTitle(title) && !IsNullOrWhiteSpace(Some(text)) then
      match generateTitle(Clip(text, TitleInputLength))
      case Success(generated) =>
        if IsNullOrWhiteSpace(generated) then title else Trim(generated.value, IsDotNetWhiteSpace)
      case Failure(_) => title
    else title
  }

  lemma AutoTitleRules(title: string, text: string, generateTitle: string -> Fallible<Option<string>>)
    ensures !IsDefaultTitle(title) ==> AutoTitle(title, text, generateTitle) == title
    ensures IsNullOrWhiteSpace(Some(text)) ==> AutoTitle(title, text, generateTitle) == title
    ensures generateTitle(Clip(text, TitleInputLength)).Failure? ==> AutoTitle(title, text, generateTitle) == title
    ensures AutoTitle(title, text, generateTitle) != title ==>
      && !IsNullOrWhiteSpace(Some(AutoTitle(title, text, generateTitle)))
      && Trimmed(AutoTitle(title, text, generateTitle), IsDotNetWhiteSpace)
      && generateTitle(Clip(text, TitleInputLength)).Success?
      && AutoTitle(title, text, generateTitle)
         == Trim(generateTitle(Clip(text, TitleInputLength)).value.value, IsDotNetWhiteSpace)
    ensures |Clip(text, TitleInputLength)| <= TitleInputLength
  {
    ClipBounded(text, TitleInputLength);
    if IsDefaultTitle(title) && !IsNullOrWhiteSpace(Some(text)) {
      var g := generateTitle(Clip(text, TitleInputLength));
      if g.Success? && !IsNullOrWhiteSpace(g.value) {
        TrimShape(g.value.value, IsDotNetWhiteSpace);
        TrimEmptyIffBlank(g.value.value, IsDotNetWhiteSpace);
      }
    }
  }

  /** Once a title is not a default one, no later upload changes it. */
  lemma CustomTitleSticks(title: string, text: string, generateTitle: string -> Fallible<Option<string>>,
                          laterText: string, laterGenerate: string -> Fallible<Option<string>>)
    requires !IsDefaultTitle(AutoTitle(title, text, generateTitle))
    ensures AutoTitle(AutoTitle(title, text, generateTitle), laterText, laterGenerate)
         == AutoTitle(title, text, generateTitle)
  {
  }

  // ---------------------------------------------------------------------------
  // POST api/meetings

  datatype CreateMeetingResponse = CreateMeetingResponse(id: nat, title: string, createdAt: nat)

  method Create(db: Db, title: Option<string>) returns (resp: ActionResult<CreateMeetingResponse>)
    requires db.Valid()
    modifies db
    ensures db.Valid()
    ensures resp == Ok(CreateMeetingResponse(old(db.nextId), CreateTitle(title), old(db.clock)))
    ensures db.meetings == old(db.meetings) + [MeetingRow(old(db.nextId), DemoUser, CreateTitle(title), old(db.clock))]
    ensures db.transcripts == old(db.transcripts) && db.analyses == old(db.analyses)
  {
    var t := CreateTitle(title);
    var createdAt := db.clock;
    var id := db.AddMeeting(DemoUser, t);
    resp := Ok(CreateMeetingResponse(id, t, createdAt));
  }

  // ---------------------------------------------------------------------------
  // POST api/meetings/{id}/audio

  /** What the transcription service returns. */
  datatype Transcription = Transcription(language: string, text: string, segments: seq<SegmentRow>)

  datatype UploadAudioResponse = UploadAudioResponse(
    meetingId: nat, title: string, transcriptId: nat, language: string,
    segmentCount: nat, transcriptPreview: string)

  const TranscriptPreviewLength: nat := 220

  /** The message of the `DbUpdateException` a failing `SaveChangesAsync` raises. */
  const SaveFailed: string := "An error occurred while saving the entity changes. See the inner exception for details."

  /** The transcripts once the meeting's own row, if it has one, is removed. */
  function WithoutTranscriptOf(rows: seq<TranscriptRow>, meetingId: nat): (r: seq<TranscriptRow>)
    requires forall i, j :: 0 <= i < j < |rows| ==> rows[i].meetingId != rows[j].meetingId
    ensures TranscriptIn(r, meetingId).None?
    ensures |r| == |rows| - (if TranscriptIn(rows, meetingId).Some? then 1 else 0)
    ensures forall i :: 0 <= i < |rows| && rows[i].meetingId != meetingId ==> rows[i] in r
    ensures TranscriptIndexIn(rows, meetingId).Some? ==> r == RemoveAt(rows, TranscriptIndexIn(rows, meetingId).value)
    ensures TranscriptIndexIn(rows, meetingId).None? ==> r == rows
  {
    match TranscriptIndexIn(rows, meetingId)
    case None => rows
    case Some(k) =>
      var r := RemoveAt(rows, k);
      forall i | 0 <= i < |rows| && rows[i].meetingId != meetingId ensures rows[i] in r {
        if i < k {
          assert r[i] == rows[i];
        } else {
          assert r[i - 1] == rows[i];
        }
      }
      r
  }

  /** A meeting whose row is in the table keeps it when retitled with its own title. */
  lemma RetitledWithOwnTitle(rows: seq<MeetingRow>, m: MeetingRow)
    requires forall i, j :: 0 <= i < j < |rows| ==> rows[i].id < rows[j].id
    requires m in rows
    ensures Retitled(rows, m.id, m.title) == rows
  {
    var r := Retitled(rows, m.id, m.title);
    var k :| 0 <= k < |rows| && rows[k] == m;
    forall i | 0 <= i < |rows| ensures r[i] == rows[i] {
      if rows[i].id == m.id {
        assert i == k;
      }
    }
  }

  /** After a row is appended for a meeting that had none, it is that meeting's transcript. */
  lemma {:induction false} TranscriptOfAppended(rows: seq<TranscriptRow>, t: TranscriptRow)
    requires TranscriptIn(rows, t.meetingId).None?
    ensures TranscriptIn(rows + [t], t.meetingId) == Some(t)
  {
    if rows != [] {
      TranscriptOfAppended(rows[1..], t);
      assert (rows + [t])[1..] == rows[1..] + [t];
    }
  }

  /** `UploadAudio`: check the file, find the meeting, transcribe, delete the old
      transcript, store the new one, auto-title a default-titled meeting and answer
      with a 220-character preview. The old transcript is deleted in its own save,
      so when storing the new one fails (two segments sharing an index) the
      meeting is left without a transcript. A missing file never reaches the
      action: the non-nullable `IFormFile` parameter is required by model
      validation, which answers with a 400 problem-details body, so the action's
      "file is required." is never sent. */
  method UploadAudio(db: Db, id: int, file: Option<seq<bv8>>,
                     transcribe: seq<bv8> -> Fallible<Transcription>,
                     generateTitle: string -> Fallible<Option<string>>)
    returns (resp: ActionResult<UploadAudioResponse>)
    requires db.Valid()
    modifies db
    ensures db.Valid()
    ensures file.None? ==> resp == Problem(BadRequestStatus) && unchanged(db)
    ensures file == Some([]) ==> resp == BadRequest("file is empty.") && unchanged(db)
    ensures file.Some? && file.value != [] && old(db.FindMeeting(id)).None? ==>
      resp == NotFound("Meeting not found.") && unchanged(db)
    ensures file.Some? && file.value != [] && old(db.FindMeeting(id)).Some? && transcribe(file.value).Failure? ==>
      resp == ServerError(transcribe(file.value).error) && unchanged(db)
    ensures file.Some? && file.value != [] && old(db.FindMeeting(id)).Some? && transcribe(file.value).Success? ==>
      var m := old(db.FindMeeting(id)).value;
      var tr := transcribe(file.value).value;
      var title := AutoTitle(m.title, tr.text, generateTitle);
      var row := TranscriptRow(old(db.nextId), m.id, tr.language, tr.text, tr.segments, old(db.clock));
      && db.analyses == old(db.analyses)
      && (DistinctIndices(tr.segments) ==>
            && resp == Ok(UploadAudioResponse(m.id, title, row.id, tr.language, |tr.segments|,
                                              Preview(tr.text, TranscriptPreviewLength)))
            && db.transcripts == WithoutTranscriptOf(old(db.transcripts), m.id) + [row]
            && db.TranscriptOf(m.id) == Some(row)
            && db.meetings == Retitled(old(db.meetings), m.id, title))
      && (!DistinctIndices(tr.segments) ==>
            && resp == ServerError(SaveFailed)
            && db.transcripts == WithoutTranscriptOf(old(db.transcripts), m.id)
            && db.TranscriptOf(m.id).None?
            && db.meetings == old(db.meetings))
  {
    if file.None? {
      return Problem(BadRequestStatus);
    }
    if file.value == [] {
      return BadRequest("file is empty.");
    }
    var found := db.FindMeeting(id);
    if found.None? {
      return NotFound("Meeting not found.");
    }
    var m := found.value;
    var result := transcribe(file.value);
    if result.Failure? {
      return ServerError(result.error);
    }
    var tr := result.value;
    var k := TranscriptIndexIn(db.transcripts, m.id);
    if k.Some? {
      db.RemoveTranscript(k.value);
    }
    assert db.transcripts == WithoutTranscriptOf(old(db.transcripts), m.id);
    var ok, transcriptId := db.AddTranscript(m.id, tr.language, tr.text, tr.segments);
    if !ok {
      return ServerError(SaveFailed);
    }
    TranscriptOfAppended(WithoutTranscriptOf(old(db.transcripts), m.id),
                         TranscriptRow(transcriptId, m.id, tr.language, tr.text, tr.segments, old(db.clock)));
    var title := AutoTitle(m.title, tr.text, generateTitle);
    if title != m.title {
      db.SetTitle(m.id, title);
    } else {
      RetitledWithOwnTitle(db.meetings, m);
    }
    resp := Ok(UploadAudioResponse(m.id, title, transcriptId, tr.language, |tr.segments|,
                                   Preview(tr.text, TranscriptPreviewLength)));
  }

  // ---------------------------------------------------------------------------
  // POST api/meetings/{id}/analyze

  /** The transcript text an analysis of meeting `id` works on, if the meeting
      exists and has a transcript. */
  function StoredTranscriptText(db: Db, id: int): Option<string>
    reads db
  {
    if db.FindMeeting(id).None? || db.TranscriptOf(id).None? then None
    else Some(db.TranscriptOf(id).value.text)
  }

  /** The progress steps of a meeting analysis, in the order they are sent. */
  const MeetingAnalysisSteps: seq<HubEvent> := [TranscriptStep, ExtractTopicsStep, DecisionsStep, ActionsStep]

  /** What one meeting `Analyze` call broadcasts: nothing when there is no
      non-blank transcript text; otherwise the four steps, then the result if the
      analyser produced one. */
  function MeetingAnalyzeBroadcasts(text: Option<string>, analyze: string -> Fallible<Analysis>): seq<HubEvent> {
    if IsNullOrWhiteSpace(text) then []
    else match analyze(text.value)
      case Success(a) => MeetingAnalysisSteps + [ResultReady(a.summary, a.actions)]
      case Failure(_) => MeetingAnalysisSteps
  }

  /** A meeting analysis announces the loaded transcript and then exactly what a
      free-text analysis of the transcript text announces. */
  lemma MeetingAnalyzeExtendsTextAnalyze(text: Option<string>, analyze: string -> Fallible<Analysis>)
    ensures IsNullOrWhiteSpace(text) ==> MeetingAnalyzeBroadcasts(text, analyze) == []
    ensures !IsNullOrWhiteSpace(text) ==>
      MeetingAnalyzeBroadcasts(text, analyze) == [TranscriptStep] + AC.AnalyzeBroadcasts(text, analyze)
  {
  }

  /** An accepted meeting analysis sends Transcript, ExtractTopics, Decisions and
      Actions in that order, then exactly one result as its last event; when the
      analyser fails, the steps are sent and no result is. */
  lemma MeetingAnalyzeBroadcastOrder(text: Option<string>, analyze: string -> Fallible<Analysis>)
    requires !IsNullOrWhiteSpace(text)
    ensures var b := MeetingAnalyzeBroadcasts(text, analyze);
      && b[..4] == [TranscriptStep, ExtractTopicsStep, DecisionsStep, ActionsStep]
      && (analyze(text.value).Success? ==>
            |b| == 5 && CountResults(b) == 1
            && b[4] == ResultReady(analyze(text.value).value.summary, analyze(text.value).value.actions))
      && (analyze(text.value).Failure? ==> |b| == 4 && CountResults(b) == 0)
  {
    var b := MeetingAnalyzeBroadcasts(text, analyze);
    MeetingAnalyzeExtendsTextAnalyze(text, analyze);
    AC.AnalyzeBroadcastOrder(text, analyze);
    CountResultsAppend([TranscriptStep], AC.AnalyzeBroadcasts(text, analyze));
    StepsHoldNoResult([TranscriptStep]);
  }

  method Analyze(hub: Hub, db: Db, id: int, analyze: string -> Fallible<Analysis>)
    returns (resp: ActionResult<AC.AnalyzeResponse>)
    requires db.Valid()
    modifies hub, db
    ensures db.Valid()
    ensures hub.log == old(hub.log) + MeetingAnalyzeBroadcasts(old(StoredTranscriptText(db, id)), analyze)
    ensures old(db.FindMeeting(id)).None? ==> resp == NotFound("Meeting not found.") && unchanged(db)
    ensures old(db.FindMeeting(id)).Some? && old(db.TranscriptOf(id)).None? ==>
      resp == BadRequest("No transcript uploaded for this meeting.") && unchanged(db)
    ensures old(db.FindMeeting(id)).Some? && old(db.TranscriptOf(id)).Some? ==>
      var text := old(db.TranscriptOf(id)).value.text;
      && (IsNullOrWhiteSpace(Some(text)) ==> resp == BadRequest("Transcript is empty.") && unchanged(db))
      && (!IsNullOrWhiteSpace(Some(text)) && analyze(text).Failure? ==>
            resp == ServerError(analyze(text).error) && unchanged(db))
      && (!IsNullOrWhiteSpace(Some(text)) && analyze(text).Success? ==>
            var a := analyze(text).value;
            && resp == Ok(AC.AnalyzeResponse(old(db.nextId), a.summary, a.actions))
            && db.analyses == old(db.analyses) + [AnalysisRow(old(db.nextId), Some(old(db.FindMeeting(id)).value.id),
                                                             Some(DemoUser), text, a.summary, Some(a.actions), old(db.clock))]
            && db.meetings == old(db.meetings) && db.transcripts == old(db.transcripts))
  {
    var found := db.FindMeeting(id);
    if found.None? {
      assert StoredTranscriptText(db, id).None?;
      return NotFound("Meeting not found.");
    }
    var m := found.value;
    var transcript := db.TranscriptOf(id);
    if transcript.None? {
      assert StoredTranscriptText(db, id).None?;
      return BadRequest("No transcript uploaded for this meeting.");
    }
    var text := transcript.value.text;
    assert StoredTranscriptText(db, id) == Some(text);
    if IsNullOrWhiteSpace(Some(text)) {
      assert MeetingAnalyzeBroadcasts(Some(text), analyze) == [];
      return BadRequest("Transcript is empty.");
    }
    ghost var sent := hub.log;
    hub.SendAll(TranscriptStep);
    hub.SendAll(ExtractTopicsStep);
    hub.SendAll(DecisionsStep);
    hub.SendAll(ActionsStep);
    assert hub.log == sent + MeetingAnalysisSteps;
    ghost var stepsSent := hub.log;
    resp := AC.StoreAndAnnounce(hub, db, Some(m.id), text, analyze);
    if analyze(text).Success? {
      var a := analyze(text).value;
      assert MeetingAnalyzeBroadcasts(Some(text), analyze) == MeetingAnalysisSteps + [ResultReady(a.summary, a.actions)];
      assert hub.log == stepsSent + [ResultReady(a.summary, a.actions)];
      SendInTurn(sent, MeetingAnalysisSteps, [ResultReady(a.summary, a.actions)]);
    } else {
      assert MeetingAnalyzeBroadcasts(Some(text), analyze) == MeetingAnalysisSteps;
    }
    assert hub.log == sent + MeetingAnalyzeBroadcasts(Some(text), analyze);
  }

  // ---------------------------------------------------------------------------
  // POST api/meetings/{id}/analyze-transcript

  datatype ActionItem = ActionItem(task: string, owner: Option<string>, dueDate: Option<string>, context: Option<string>)

  /** The detailed analysis the transcript analyser returns. */
  datatype TranscriptAnalysis = TranscriptAnalysis(
    title: string, executiveSummary: string, keyPoints: seq<string>, decisions: seq<string>,
    actionItems: seq<ActionItem>, risks: seq<string>, openQuestions: seq<string>)

  datatype AnalyzeTranscriptResponse = AnalyzeTranscriptResponse(analysisId: nat, meetingId: nat, detailed: TranscriptAnalysis)

  const OwnerOpen: string := " (Owner: "
  const OwnerClose: string := ")"

  /** How one action item is kept in the history: its task, followed by its owner when it has one. */
  function ActionText(a: ActionItem): string {
    match a.owner
    case None => a.task
    case Some(o) => a.task + OwnerOpen + o + OwnerClose
  }

  /** The history keeps the task and the owner: two items with the same task are
      stored alike exactly when they have the same owner. */
  lemma ActionTextKeepsOwner(a: ActionItem, b: ActionItem)
    requires a.task == b.task
    ensures ActionText(a) == ActionText(b) <==> a.owner == b.owner
  {
    if ActionText(a) == ActionText(b) && a.owner.Some? && b.owner.Some? {
      var n := |a.task| + |OwnerOpen|;
      assert ActionText(a)[n..|ActionText(a)| - 1] == a.owner.value;
      assert ActionText(b)[n..|ActionText(b)| - 1] == b.owner.value;
    }
  }

  /** The action items as the strings stored with the analysis, one per item, in order. */
  function FlattenActions(items: seq<ActionItem>): (r: seq<string>)
    ensures |r| == |items|
    ensures forall i :: 0 <= i < |r| ==> r[i] == ActionText(items[i])
  {
    if items == [] then [] else [ActionText(items[0])] + FlattenActions(items[1..])
  }

  function SegmentIndex(s: SegmentRow): int { s.index }

  /** `Segments.OrderBy(s => s.SegmentIndex)`. */
  function SegmentsInOrder(segments: seq<SegmentRow>): (r: seq<SegmentRow>)
    ensures |r| == |segments| && multiset(r) == multiset(segments)
    ensures forall i, j :: 0 <= i < j < |r| ==> r[i].index <= r[j].index
  {
    var r := SortBy(segments, SegmentIndex);
    assert forall i, j :: 0 <= i < j < |r| ==> SegmentIndex(r[i]) <= SegmentIndex(r[j]);
    r
  }

  method AnalyzeTranscript(db: Db, id: int,
                           analyzeTranscript: (string, string, seq<SegmentRow>) -> Fallible<TranscriptAnalysis>)
    returns (resp: ActionResult<AnalyzeTranscriptResponse>)
    requires db.Valid()
    modifies db
    ensures db.Valid()
    ensures old(db.FindMeeting(id)).None? ==> resp == NotFound("Meeting not found.") && unchanged(db)
    ensures old(db.FindMeeting(id)).Some? && old(db.TranscriptOf(id)).None? ==>
      resp == BadRequest("No transcript for this meeting yet.") && unchanged(db)
    ensures old(db.FindMeeting(id)).Some? && old(db.TranscriptOf(id)).Some? ==>
      var m := old(db.FindMeeting(id)).value;
      var t := old(db.TranscriptOf(id)).value;
      var d := analyzeTranscript(m.title, t.text, SegmentsInOrder(t.segments));
      && (d.Failure? ==> resp == ServerError(d.error) && unchanged(db))
      && (d.Success? ==>
            && resp == Ok(AnalyzeTranscriptResponse(old(db.nextId), m.id, d.value))
            && db.analyses == old(db.analyses) + [AnalysisRow(old(db.nextId), Some(m.id), Some(m.userId), t.text,
                                                             d.value.executiveSummary,
                                                             Some(FlattenActions(d.value.actionItems)), old(db.clock))]
            && db.meetings == old(db.meetings) && db.transcripts == old(db.transcripts))
  {
    var found := db.FindMeeting(id);
    if found.None? {
      return NotFound("Meeting not found.");
    }
    var m := found.value;
    var transcript := db.TranscriptOf(id);
    if transcript.None? {
      return BadRequest("No transcript for this meeting yet.");
    }
    var t := transcript.value;
    var outcome := analyzeTranscript(m.title, t.text, SegmentsInOrder(t.segments));
    if outcome.Failure? {
      return ServerError(outcome.error);
    }
    var d := outcome.value;
    var analysisId := db.AddAnalysis(Some(m.id), Some(m.userId), t.text, d.executiveSummary, FlattenActions(d.actionItems));
    resp := Ok(AnalyzeTranscriptResponse(analysisId, m.id, d));
  }

  // ---------------------------------------------------------------------------
  // GET api/meetings/{id}/transcript

  datatype TranscriptResponse = TranscriptResponse(
    meetingId: nat, transcriptId: nat, language: string, segmentCount: nat,
    text: string, segments: seq<SegmentRow>)

  /** The transcript as the read endpoints return it: its segments ordered by index. */
  function TranscriptBody(meetingId: nat, t: TranscriptRow): (r: TranscriptResponse)
    ensures r.meetingId == meetingId && r.transcriptId == t.id && r.text == t.text && r.language == t.language
    ensures r.segmentCount == |r.segments| == |t.segments| && multiset(r.segments) == multiset(t.segments)
    ensures forall i, j :: 0 <= i < j < |r.segments| ==> r.segments[i].index <= r.segments[j].index
  {
    TranscriptResponse(meetingId, t.id, t.language, |t.segments|, t.text, SegmentsInOrder(t.segments))
  }

  function GetTranscript(db: Db, id: int): (r: ActionResult<TranscriptResponse>)
    reads db
    ensures r.Ok? || r.NotFound?
    ensures r == NotFound("Meeting not found.") <==> db.FindMeeting(id).None?
    ensures r == NotFound("No transcript for this meeting.") <==> db.FindMeeting(id).Some? && db.TranscriptOf(id).None?
    ensures r.Ok? ==>
      && db.TranscriptOf(id).Some? && r.body.meetingId == id
      && r.body.transcriptId == db.TranscriptOf(id).value.id && r.body.text == db.TranscriptOf(id).value.text
    ensures r.Ok? ==> r.body == TranscriptBody(id, db.TranscriptOf(id).value)
  {
    match db.FindMeeting(id)
    case None => NotFound("Meeting not found.")
    case Some(m) =>
      match db.TranscriptOf(m.id)
      case None => NotFound("No transcript for this meeting.")
      case Some(t) => Ok(TranscriptBody(m.id, t))
  }

  // ---------------------------------------------------------------------------
  // GET api/meetings?take=n

  /** The analyses that belong to meeting `meetingId`, in table order. */
  function AnalysesOf(rows: seq<AnalysisRow>, meetingId: nat): (r: seq<AnalysisRow>)
    ensures forall x :: x in r <==> x in rows && x.meetingId == Some(meetingId)
  {
    if rows == [] then []
    else if rows[0].meetingId == Some(meetingId) then [rows[0]] + AnalysesOf(rows[1..], meetingId)
    else AnalysesOf(rows[1..], meetingId)
  }

  /** When meeting `meetingId` was last analysed, if ever: the stamp of the first
      of its analyses, newest first. */
  function LastAnalysisAt(rows: seq<AnalysisRow>, meetingId: nat): Option<nat> {
    var sorted := NewestAnalysesFirst(AnalysesOf(rows, meetingId));
    if sorted == [] then None else Some(sorted[0].createdAt)
  }

  /** There is no last analysis exactly when the meeting has none; otherwise it is
      the stamp of one of its analyses and no analysis of it is newer. */
  lemma LastAnalysisAtIsLatest(rows: seq<AnalysisRow>, meetingId: nat)
    ensures var r := LastAnalysisAt(rows, meetingId);
      && (r.None? <==> forall i :: 0 <= i < |rows| ==> rows[i].meetingId != Some(meetingId))
      && (r.Some? ==> exists i :: 0 <= i < |rows| && rows[i].meetingId == Some(meetingId) && rows[i].createdAt == r.value)
      && (r.Some? ==> forall i :: 0 <= i < |rows| && rows[i].meetingId == Some(meetingId) ==> rows[i].createdAt <= r.value)
  {
    var own := AnalysesOf(rows, meetingId);
    var sorted := NewestAnalysesFirst(own);
    if sorted == [] {
      assert own == [];
    } else {
      assert sorted[0] in multiset(own);
      assert sorted[0] in rows;
      forall i | 0 <= i < |rows| && rows[i].meetingId == Some(meetingId)
        ensures rows[i].createdAt <= sorted[0].createdAt
      {
        assert rows[i] in own;
        assert rows[i] in multiset(sorted);
        var j :| 0 <= j < |sorted| && sorted[j] == rows[i];
        if j > 0 {
          assert sorted[0].createdAt >= sorted[j].createdAt;
        }
      }
    }
  }

  datatype MeetingListItem = MeetingListItem(
    id: nat, title: string, createdAt: nat, hasTranscript: bool, lastAnalysisAt: Option<nat>)

  const MaxListTake: int := 200

  /** One row of the list: the meeting's own fields, whether it has a transcript
      and when it was last analysed. */
  function MeetingItem(transcripts: seq<TranscriptRow>, analyses: seq<AnalysisRow>, m: MeetingRow): MeetingListItem {
    MeetingListItem(m.id, m.title, m.createdAt, TranscriptIn(transcripts, m.id).Some?, LastAnalysisAt(analyses, m.id))
  }

  function MeetingItems(transcripts: seq<TranscriptRow>, analyses: seq<AnalysisRow>, rows: seq<MeetingRow>)
    : (r: seq<MeetingListItem>)
    ensures |r| == |rows|
    ensures forall i :: 0 <= i < |r| ==> r[i] == MeetingItem(transcripts, analyses, rows[i])
  {
    if rows == [] then [] else [MeetingItem(transcripts, analyses, rows[0])] + MeetingItems(transcripts, analyses, rows[1..])
  }

  /** The items made from part of the meetings, newest first: each is made from
      a stored meeting, carries whether it has a transcript and when it was last
      analysed, and they stay newest first. */
  lemma ListedItems(db: Db, kept: seq<MeetingRow>)
    requires multiset(kept) <= multiset(db.meetings)
    requires forall i, j :: 0 <= i < j < |kept| ==> kept[i].createdAt >= kept[j].createdAt
    ensures forall i :: 0 <= i < |kept| ==> kept[i] in db.meetings
    ensures var r := MeetingItems(db.transcripts, db.analyses, kept);
      && (forall i, j :: 0 <= i < j < |r| ==> r[i].createdAt >= r[j].createdAt)
      && (forall i :: 0 <= i < |r| ==>
            && (r[i].hasTranscript <==> db.TranscriptOf(r[i].id).Some?)
            && r[i].lastAnalysisAt == LastAnalysisAt(db.analyses, r[i].id))
  {
    forall i | 0 <= i < |kept| ensures kept[i] in db.meetings {
      assert kept[i] in multiset(db.meetings);
    }
  }

  /** The meetings the list endpoint shows: the newest of them, newest first,
      `take` clamped to 1..200 of them, each at most once, and all of them when
      the clamped `take` reaches the count. */
  function ListedMeetings(db: Db, take: int): (r: seq<MeetingRow>)
    reads db
    ensures multiset(r) <= multiset(db.meetings)
    ensures var n := Clamp(take, 1, MaxListTake); |r| == if n < |db.meetings| then n else |db.meetings|
    ensures Clamp(take, 1, MaxListTake) >= |db.meetings| ==> multiset(r) == multiset(db.meetings)
    ensures forall i, j :: 0 <= i < j < |r| ==> r[i].createdAt >= r[j].createdAt
  {
    var sorted := NewestMeetingsFirst(db.meetings);
    TakeIsSubMultiset(sorted, Clamp(take, 1, MaxListTake));
    Take(sorted, Clamp(take, 1, MaxListTake))
  }

  /** `GET api/meetings?take=n`: the newest meetings, newest first, between 1 and
      200 of them, each with whether it has a transcript and when it was last analysed. */
  function ListMeetings(db: Db, take: int): (r: seq<MeetingListItem>)
    reads db
    ensures var n := Clamp(take, 1, MaxListTake); |r| == if n < |db.meetings| then n else |db.meetings|
    ensures |r| <= MaxListTake && (db.meetings != [] ==> |r| >= 1)
    ensures |r| == |ListedMeetings(db, take)|
    ensures forall i :: 0 <= i < |r| ==> r[i] == MeetingItem(db.transcripts, db.analyses, ListedMeetings(db, take)[i])
    ensures forall i :: 0 <= i < |r| ==> ListedMeetings(db, take)[i] in db.meetings
    ensures forall i, j :: 0 <= i < j < |r| ==> r[i].createdAt >= r[j].createdAt
    ensures forall i :: 0 <= i < |r| ==>
      && (r[i].hasTranscript <==> db.TranscriptOf(r[i].id).Some?)
      && r[i].lastAnalysisAt == LastAnalysisAt(db.analyses, r[i].id)
  {
    var kept := ListedMeetings(db, take);
    ListedItems(db, kept);
    MeetingItems(db.transcripts, db.analyses, kept)
  }

  /** Every listed item carries the id, title and stamp of a stored meeting. */
  lemma ListedItemsAreStored(db: Db, take: int)
    ensures forall i :: 0 <= i < |ListMeetings(db, take)| ==>
      exists k :: 0 <= k < |db.meetings| && ListMeetings(db, take)[i].id == db.meetings[k].id
                  && ListMeetings(db, take)[i].title == db.meetings[k].title
                  && ListMeetings(db, take)[i].createdAt == db.meetings[k].createdAt
  {
    var r := ListMeetings(db, take);
    var kept := ListedMeetings(db, take);
    forall i | 0 <= i < |r|
      ensures exists k :: 0 <= k < |db.meetings| && r[i].id == db.meetings[k].id
                          && r[i].title == db.meetings[k].title && r[i].createdAt == db.meetings[k].createdAt
    {
      var k :| 0 <= k < |db.meetings| && db.meetings[k] == kept[i];
      assert r[i] == MeetingItem(db.transcripts, db.analyses, db.meetings[k]);
    }
  }

  /** With the clamped `take` at least the count, every meeting is listed. */
  lemma AllMeetingsListed(db: Db, take: int, m: MeetingRow)
    requires m in db.meetings && Clamp(take, 1, MaxListTake) >= |db.meetings|
    ensures m in ListedMeetings(db, take)
  {
    assert m in multiset(db.meetings);
    assert m in multiset(ListedMeetings(db, take));
  }

  /** A meeting that is not listed is no newer than any that is. */
  lemma LeftOutMeetingIsOlder(db: Db, take: int, m: MeetingRow)
    requires m in db.meetings && m !in ListedMeetings(db, take)
    ensures forall i :: 0 <= i < |ListedMeetings(db, take)| ==> m.createdAt <= ListedMeetings(db, take)[i].createdAt
  {
    var sorted := NewestMeetingsFirst(db.meetings);
    assert m in multiset(sorted);
    TakeOfSortedIsLeast(sorted, MeetingAge, Clamp(take, 1, MaxListTake), m);
  }

  /** The list shows the newest meetings: with the clamped `take` at least the
      count every meeting is listed, and a meeting that is left out is no newer
      than any listed one. */
  lemma ListMeetingsListsNewest(db: Db, take: int, m: MeetingRow)
    requires m in db.meetings
    ensures Clamp(take, 1, MaxListTake) >= |db.meetings| ==>
      MeetingItem(db.transcripts, db.analyses, m) in ListMeetings(db, take)
    ensures MeetingItem(db.transcripts, db.analyses, m) !in ListMeetings(db, take) ==>
      forall i :: 0 <= i < |ListMeetings(db, take)| ==> m.createdAt <= ListMeetings(db, take)[i].createdAt
  {
    var kept := ListedMeetings(db, take);
    var r := ListMeetings(db, take);
    if m in kept {
      var i :| 0 <= i < |kept| && kept[i] == m;
      assert r[i] == MeetingItem(db.transcripts, db.analyses, m);
    } else {
      if Clamp(take, 1, MaxListTake) >= |db.meetings| {
        AllMeetingsListed(db, take, m);
      }
      LeftOutMeetingIsOlder(db, take, m);
    }
  }

  // ---------------------------------------------------------------------------
  // GET api/meetings/{id}

  datatype AnalysisSummary = AnalysisSummary(id: nat, summary: string, createdAt: nat)

  datatype MeetingDetails = MeetingDetails(
    id: nat, title: string, createdAt: nat,
    transcript: Option<TranscriptResponse>, analyses: seq<AnalysisSummary>)

  const DetailsAnalysesLimit: nat := 25

  function SummaryOf(a: AnalysisRow): AnalysisSummary {
    AnalysisSummary(a.id, a.summary, a.createdAt)
  }

  function Summaries(rows: seq<AnalysisRow>): (r: seq<AnalysisSummary>)
    ensures |r| == |rows|
    ensures forall i :: 0 <= i < |r| ==> r[i] == SummaryOf(rows[i])
  {
    if rows == [] then [] else [SummaryOf(rows[0])] + Summaries(rows[1..])
  }

  /** The rows of the meeting's 25 newest analyses, newest first: part of the
      meeting's analyses, each at most once, and all of them when there are no
      more than 25. */
  function RecentRows(rows: seq<AnalysisRow>, meetingId: nat): (r: seq<AnalysisRow>)
    ensures multiset(r) <= multiset(AnalysesOf(rows, meetingId))
    ensures var own := |AnalysesOf(rows, meetingId)|;
      |r| == if own < DetailsAnalysesLimit then own else DetailsAnalysesLimit
    ensures |AnalysesOf(rows, meetingId)| <= DetailsAnalysesLimit ==>
      multiset(r) == multiset(AnalysesOf(rows, meetingId))
    ensures forall i, j :: 0 <= i < j < |r| ==> r[i].createdAt >= r[j].createdAt
  {
    var own := AnalysesOf(rows, meetingId);
    var sorted := NewestAnalysesFirst(own);
    TakeIsSubMultiset(sorted, DetailsAnalysesLimit);
    Take(sorted, DetailsAnalysesLimit)
  }

  /** Every row of a part of the meeting's analyses is one of the table's rows for that meeting. */
  lemma PartOfOwnComesFromRows(rows: seq<AnalysisRow>, meetingId: nat, kept: seq<AnalysisRow>)
    requires multiset(kept) <= multiset(AnalysesOf(rows, meetingId))
    ensures forall i :: 0 <= i < |kept| ==>
      exists k :: 0 <= k < |rows| && rows[k].meetingId == Some(meetingId) && kept[i] == rows[k]
  {
    forall i | 0 <= i < |kept|
      ensures exists k :: 0 <= k < |rows| && rows[k].meetingId == Some(meetingId) && kept[i] == rows[k]
    {
      assert kept[i] in multiset(AnalysesOf(rows, meetingId));
    }
  }

  /** The meeting's 25 newest analyses, newest first, as the details endpoint lists them. */
  function RecentAnalysesOf(rows: seq<AnalysisRow>, meetingId: nat): (r: seq<AnalysisSummary>)
    ensures var own := |AnalysesOf(rows, meetingId)|;
      |r| == if own < DetailsAnalysesLimit then own else DetailsAnalysesLimit
    ensures |r| == |RecentRows(rows, meetingId)|
    ensures forall i :: 0 <= i < |r| ==> r[i] == SummaryOf(RecentRows(rows, meetingId)[i])
    ensures forall i :: 0 <= i < |r| ==>
      exists k :: 0 <= k < |rows| && rows[k].meetingId == Some(meetingId) && r[i] == SummaryOf(rows[k])
    ensures forall i, j :: 0 <= i < j < |r| ==> r[i].createdAt >= r[j].createdAt
  {
    var kept := RecentRows(rows, meetingId);
    PartOfOwnComesFromRows(rows, meetingId, kept);
    var r := Summaries(kept);
    forall i | 0 <= i < |r|
      ensures exists k :: 0 <= k < |rows| && rows[k].meetingId == Some(meetingId) && r[i] == SummaryOf(rows[k])
    {
      var k :| 0 <= k < |rows| && rows[k].meetingId == Some(meetingId) && kept[i] == rows[k];
    }
    r
  }

  /** With no more than 25 analyses, every one of the meeting's analyses is kept. */
  lemma FewAnalysesAllKept(rows: seq<AnalysisRow>, meetingId: nat, a: AnalysisRow)
    requires a in rows && a.meetingId == Some(meetingId)
    requires |AnalysesOf(rows, meetingId)| <= DetailsAnalysesLimit
    ensures a in RecentRows(rows, meetingId)
  {
    assert a in multiset(AnalysesOf(rows, meetingId));
    assert a in multiset(RecentRows(rows, meetingId));
  }

  /** An analysis of the meeting that is not kept is no newer than any that is. */
  lemma LeftOutAnalysisIsOlder(rows: seq<AnalysisRow>, meetingId: nat, a: AnalysisRow)
    requires a in rows && a.meetingId == Some(meetingId)
    requires a !in RecentRows(rows, meetingId)
    ensures forall i :: 0 <= i < |RecentRows(rows, meetingId)| ==> a.createdAt <= RecentRows(rows, meetingId)[i].createdAt
  {
    var sorted := NewestAnalysesFirst(AnalysesOf(rows, meetingId));
    assert a in multiset(sorted);
    TakeOfSortedIsLeast(sorted, AnalysisAge, DetailsAnalysesLimit, a);
  }

  /** The details list is the meeting's newest analyses: with no more than 25 of
      them every one is listed, and one that is left out is no newer than any
      that is listed. */
  lemma RecentAnalysesAreNewest(rows: seq<AnalysisRow>, meetingId: nat, a: AnalysisRow)
    requires a in rows && a.meetingId == Some(meetingId)
    ensures |AnalysesOf(rows, meetingId)| <= DetailsAnalysesLimit ==> SummaryOf(a) in RecentAnalysesOf(rows, meetingId)
    ensures SummaryOf(a) !in RecentAnalysesOf(rows, meetingId) ==>
      forall i :: 0 <= i < |RecentAnalysesOf(rows, meetingId)| ==> a.createdAt <= RecentAnalysesOf(rows, meetingId)[i].createdAt
  {
    var kept := RecentRows(rows, meetingId);
    var r := RecentAnalysesOf(rows, meetingId);
    if a in kept {
      var i :| 0 <= i < |kept| && kept[i] == a;
      assert r[i] == SummaryOf(a);
    } else {
      if |AnalysesOf(rows, meetingId)| <= DetailsAnalysesLimit {
        FewAnalysesAllKept(rows, meetingId, a);
      }
      LeftOutAnalysisIsOlder(rows, meetingId, a);
    }
  }

  /** `GET api/meetings/{id}`: the meeting, its transcript as the transcript
      endpoint returns it, and its 25 newest analyses, newest first. */
  function GetMeetingDetails(db: Db, id: int): (r: ActionResult<MeetingDetails>)
    reads db
    ensures r.Ok? || r == NotFound("Meeting not found.")
    ensures r.NotFound? <==> db.FindMeeting(id).None?
    ensures r.Ok? ==>
      var m := db.FindMeeting(id).value;
      && r.body.id == m.id && r.body.title == m.title && r.body.createdAt == m.createdAt
      && (r.body.transcript.Some? <==> db.TranscriptOf(id).Some?)
      && (r.body.transcript.Some? ==> GetTranscript(db, id) == Ok(r.body.transcript.value))
      && r.body.analyses == RecentAnalysesOf(db.analyses, m.id)
  {
    match db.FindMeeting(id)
    case None => NotFound("Meeting not found.")
    case Some(m) =>
      var transcript := match db.TranscriptOf(m.id)
        case None => None
        case Some(t) => Some(TranscriptBody(m.id, t));
      Ok(MeetingDetails(m.id, m.title, m.createdAt, transcript, RecentAnalysesOf(db.analyses, m.id)))
  }
}
