/** The client's API wrappers: normalising an analysis record that may arrive
    with camelCase or PascalCase property names, the projection `analyzeNotes`
    returns, and the transcript fetch that turns a 404 into "no transcript". */
module MeetingApi {
  import opened Common
  import opened HttpClient
  import AC = AnalysisController
  import MC = MeetingsController
  import Store

  /** `MeetingAnalysisWire`: every field but `id` may be absent (`None`), and three
      of them may come under either spelling. */
  datatype Wire = Wire(
    id: int, summary: Option<string>,
    actions: Option<seq<string>>, actionsPascal: Option<seq<string>>,
    rawNotes: Option<string>, rawNotesPascal: Option<string>,
    createdAtUtc: Option<string>, createdAtUtcPascal: Option<string>)

  /** `MeetingAnalysis` as the client uses it: every field present. */
  datatype MeetingAnalysis = MeetingAnalysis(
    id: int, summary: string, actions: seq<string>, rawNotes: string, createdAtUtc: string)

  /** `a ?? b ?? d`: the first value that is present. */
  function Coalesce<T>(a: Option<T>, b: Option<T>, d: T): (r: T)
    ensures a.Some? ==> r == a.value
    ensures a.None? && b.Some? ==> r == b.value
    ensures a.None? && b.None? ==> r == d
  {
    if a.Some? then a.value else if b.Some? then b.value else d
  }

  /** `normalizeMeetingAnalysis`. */
  function Normalize(w: Wire): MeetingAnalysis {
    MeetingAnalysis(
      w.id, w.summary.GetOr(""),
      Coalesce(w.actions, w.actionsPascal, []),
      Coalesce(w.rawNotes, w.rawNotesPascal, ""),
      Coalesce(w.createdAtUtc, w.createdAtUtcPascal, ""))
  }

  /** A record written with camelCase names only. */
  function CamelWire(m: MeetingAnalysis): Wire {
    Wire(m.id, Some(m.summary), Some(m.actions), None, Some(m.rawNotes), None, Some(m.createdAtUtc), None)
  }

  /** The same record written with PascalCase names where the wire type allows them. */
  function PascalWire(m: MeetingAnalysis): Wire {
    Wire(m.id, Some(m.summary), None, Some(m.actions), None, Some(m.rawNotes), None, Some(m.createdAtUtc))
  }

  /** Either spelling of a complete record normalises back to that record, so
      normalising is idempotent on what it produces. */
  lemma NormalizeRoundTrip(m: MeetingAnalysis)
    ensures Normalize(CamelWire(m)) == m
    ensures Normalize(PascalWire(m)) == m
    ensures Normalize(CamelWire(Normalize(CamelWire(m)))) == Normalize(CamelWire(m))
  {
  }

  /** The camelCase value wins whenever it is present, even when it is empty; the
      PascalCase one is read only in its absence; a missing value becomes empty.
      The id is passed through untouched. */
  lemma NormalizePrecedence(w: Wire)
    ensures Normalize(w).id == w.id
    ensures w.summary.Some? ==> Normalize(w).summary == w.summary.value
    ensures w.summary.None? ==> Normalize(w).summary == ""
    ensures w.actions.Some? ==> Normalize(w).actions == w.actions.value
    ensures w.actions.None? && w.actionsPascal.Some? ==> Normalize(w).actions == w.actionsPascal.value
    ensures w.actions.None? && w.actionsPascal.None? ==> Normalize(w).actions == []
    ensures w.rawNotes.Some? ==> Normalize(w).rawNotes == w.rawNotes.value
    ensures w.rawNotes.None? && w.rawNotesPascal.Some? ==> Normalize(w).rawNotes == w.rawNotesPascal.value
    ensures w.rawNotes.None? && w.rawNotesPascal.None? ==> Normalize(w).rawNotes == ""
    ensures w.createdAtUtc.Some? ==> Normalize(w).createdAtUtc == w.createdAtUtc.value
    ensures w.createdAtUtc.None? && w.createdAtUtcPascal.Some? ==> Normalize(w).createdAtUtc == w.createdAtUtcPascal.value
    ensures w.createdAtUtc.None? && w.createdAtUtcPascal.None? ==> Normalize(w).createdAtUtc == ""
  {
  }

  /** The body of the analyse endpoint as the serializer writes it (camelCase,
      only `id`, `summary` and `actions`). */
  function AnalyzeWire(r: AC.AnalyzeResponse): Wire {
    Wire(r.id, Some(r.summary), Some(r.actions), None, None, None, None, None)
  }

  /** The client's `AnalyzeResponse`. */
  datatype AnalyzeResult = AnalyzeResult(id: int, summary: string, actions: seq<string>)

  /** `analyzeNotes`: the `id`, `summary` and `actions` of the normalised body. */
  function AnalyzeNotes(w: Wire): AnalyzeResult {
    var n := Normalize(w);
    AnalyzeResult(n.id, n.summary, n.actions)
  }

  /** What the server answers, the client's `analyzeNotes` returns unchanged. */
  lemma AnalyzeNotesRoundTrip(r: AC.AnalyzeResponse)
    ensures AnalyzeNotes(AnalyzeWire(r)) == AnalyzeResult(r.id, r.summary, r.actions)
  {
  }

  /** The body of `GET api/analysis/{id}`, camelCase, with the stamp rendered by `render`;
      a stored `null` action list is written as `null`. */
  function StoredWire(s: AC.StoredAnalysis, render: nat -> string): Wire {
    Wire(s.id, Some(s.summary), s.actions, None, Some(s.rawNotes), None, Some(render(s.createdAt)), None)
  }

  /** `fetchAnalysisById` on a stored analysis: everything read back as stored,
      and a `null` action list read back as `[]`. */
  lemma FetchByIdReadsStoredAnalysis(s: AC.StoredAnalysis, render: nat -> string)
    ensures Normalize(StoredWire(s, render)) ==
      MeetingAnalysis(s.id, s.summary, s.actions.GetOr([]), s.rawNotes, render(s.createdAt))
  {
  }

  // ---------------------------------------------------------------------------
  // fetchMeetingTranscript

  /** `fetchMeetingTranscript`: the body, or `null` when the server answers 404;
      every other failure is rethrown. */
  function FetchMeetingTranscript<T>(o: Outcome<T>): (r: Outcome<Option<T>>)
    ensures o.Resolved? ==> r == Resolved(Some(o.value))
    ensures o.Rejected? && o.reason.AxiosFailure? && o.reason.status == Some(404 as int) ==> r == Resolved(None)
    ensures r.Rejected? ==> o.Rejected? && r.reason == o.reason
    ensures o.Rejected? && !(o.reason.AxiosFailure? && o.reason.status == Some(404 as int)) ==> r == Rejected(o.reason)
  {
    match o
    case Resolved(v) => Resolved(Some(v))
    case Rejected(e) =>
      if e.AxiosFailure? && e.status == Some(404) then Resolved(None) else Rejected(e)
  }

  /** Against the transcript endpoint the fetch yields `null` exactly when the
      meeting is unknown or has no transcript, and the transcript otherwise; it
      never rejects, since that endpoint only answers 200 or 404. */
  lemma FetchTranscriptNullIffMissing(db: Store.Db, id: int)
    ensures var r := FetchMeetingTranscript(Serve(MC.GetTranscript(db, id)));
      && r.Resolved?
      && (r.value.None? <==> db.FindMeeting(id).None? || db.TranscriptOf(id).None?)
      && (r.value.Some? ==> Resolved(r.value.value) == Serve(MC.GetTranscript(db, id)))
  {
  }
}
