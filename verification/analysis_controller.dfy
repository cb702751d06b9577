/** `AnalysisController`: `POST api/analysis/analyze` runs an analysis job over
    free text, announcing its progress on the hub, and the `GET` endpoints read
    stored analyses back. */
module AnalysisController {
  import opened Common
  import opened Text
  import opened Ordering
  import opened Realtime
  import opened Store
  import opened AnalysisService

  const DemoUser: string := "demo-user"

  /** The progress steps of a text analysis, in the order they are sent. */
  const AnalysisSteps: seq<HubEvent> := [ExtractTopicsStep, DecisionsStep, ActionsStep]

  datatype AnalyzeResponse = AnalyzeResponse(id: nat, summary: string, actions: seq<string>)

  /** What one `Analyze` call broadcasts: nothing for blank text; otherwise the
      three steps, then the result if the analyser produced one. */
  function AnalyzeBroadcasts(text: Option<string>, analyze: string -> Fallible<Analysis>): seq<HubEvent> {
    if IsNullOrWhiteSpace(text) then []
    else match analyze(text.value)
      case Success(a) => AnalysisSteps + [ResultReady(a.summary, a.actions)]
      case Failure(_) => AnalysisSteps
  }

  /** Whether `Analyze` answers 200: the text is not blank and the analyser succeeds. */
  predicate AnalyzeSucceeds(text: Option<string>, analyze: string -> Fallible<Analysis>) {
    !IsNullOrWhiteSpace(text) && analyze(text.value).Success?
  }

  /** An analyser that falls back to the local `AnalysisService.Analyze` whenever
      the external one fails. */
  function WithLocalFallback(external: string -> Fallible<Analysis>): string -> Fallible<Analysis> {
    (t: string) => if external(t).Success? then external(t) else Success(AnalysisService.Analyze(t))
  }

  /** With such an analyser every accepted job completes: it answers 200 and
      broadcasts exactly one result, which after an external failure carries the
      fixed action items. */
  lemma FallbackJobAlwaysCompletes(text: Option<string>, external: string -> Fallible<Analysis>)
    requires !IsNullOrWhiteSpace(text)
    ensures AnalyzeSucceeds(text, WithLocalFallback(external))
    ensures CountResults(AnalyzeBroadcasts(text, WithLocalFallback(external))) == 1
    ensures external(text.value).Failure? ==>
      AnalyzeBroadcasts(text, WithLocalFallback(external))[3]
        == ResultReady(AnalysisService.Analyze(text.value).summary, FixedActions)
  {
    AnalyzeBroadcastOrder(text, WithLocalFallback(external));
  }

  /** A rejected request broadcasts nothing. */
  lemma RejectedAnalyzeIsSilent(text: Option<string>, analyze: string -> Fallible<Analysis>)
    requires IsNullOrWhiteSpace(text)
    ensures AnalyzeBroadcasts(text, analyze) == []
  {
  }

  /** An accepted request broadcasts ExtractTopics, Decisions and Actions in that
      order, then exactly one result, and the result is the last event. When the
      analyser fails the steps are still sent but no result ever is. */
  lemma AnalyzeBroadcastOrder(text: Option<string>, analyze: string -> Fallible<Analysis>)
    requires !IsNullOrWhiteSpace(text)
    ensures var b := AnalyzeBroadcasts(text, analyze);
      && b[..3] == [ExtractTopicsStep, DecisionsStep, ActionsStep]
      && (analyze(text.value).Success? ==>
            |b| == 4 && CountResults(b) == 1
            && b[3] == ResultReady(analyze(text.value).value.summary, analyze(text.value).value.actions))
      && (analyze(text.value).Failure? ==> |b| == 3 && CountResults(b) == 0)
  {
    StepsHoldNoResult(AnalysisSteps);
    match analyze(text.value)
    case Success(a) =>
      CountResultsAppend(AnalysisSteps, [ResultReady(a.summary, a.actions)]);
      assert CountResults([ResultReady(a.summary, a.actions)]) == 1 by {
        assert [ResultReady(a.summary, a.actions)][..0] == [];
      }
    case Failure(_) =>
  }

  /** The common end of both analyse jobs, after the steps are sent: run the
      analyser; on success store one `MeetingAnalysis` for the demo user and
      broadcast the result; an exception from the analyser stores and sends nothing. */
  method StoreAndAnnounce(hub: Hub, db: Db, meetingId: Option<nat>, text: string, analyze: string -> Fallible<Analysis>)
    returns (resp: ActionResult<AnalyzeResponse>)
    requires db.Valid()
    modifies hub, db
    ensures db.Valid()
    ensures analyze(text).Failure? ==> resp == ServerError(analyze(text).error) && unchanged(db) && hub.log == old(hub.log)
    ensures analyze(text).Success? ==>
      var a := analyze(text).value;
      && resp == Ok(AnalyzeResponse(old(db.nextId), a.summary, a.actions))
      && db.analyses == old(db.analyses) + [AnalysisRow(old(db.nextId), meetingId, Some(DemoUser), text,
                                                       a.summary, Some(a.actions), old(db.clock))]
      && db.meetings == old(db.meetings) && db.transcripts == old(db.transcripts)
      && hub.log == old(hub.log) + [ResultReady(a.summary, a.actions)]
  {
    var outcome := analyze(text);
    if outcome.Failure? {
      return ServerError(outcome.error);
    }
    var a := outcome.value;
    var id := db.AddAnalysis(meetingId, Some(DemoUser), text, a.summary, a.actions);
    hub.SendAll(ResultReady(a.summary, a.actions));
    resp := Ok(AnalyzeResponse(id, a.summary, a.actions));
  }

  /** `Analyze`: send the three steps, run the analyser, store one
      `MeetingAnalysis`, broadcast the result and return it. An exception from the
      analyser ends the call after the steps, with nothing stored and no result.
      Blank text never reaches the action: `AnalyzeRequest.Text` is a non-nullable
      string, so model validation treats it as required and answers a missing,
      empty or whitespace-only text with a 400 problem-details body; the action's
      own "Text is required." is never sent. */
  method Analyze(hub: Hub, db: Db, text: Option<string>, analyze: string -> Fallible<Analysis>)
    returns (resp: ActionResult<AnalyzeResponse>)
    requires db.Valid()
    modifies hub, db
    ensures db.Valid()
    ensures hub.log == old(hub.log) + AnalyzeBroadcasts(text, analyze)
    ensures resp.Ok? <==> AnalyzeSucceeds(text, analyze)
    ensures IsNullOrWhiteSpace(text) ==> resp == Problem(BadRequestStatus) && unchanged(db)
    ensures !IsNullOrWhiteSpace(text) && analyze(text.value).Failure? ==>
      resp == ServerError(analyze(text.value).error) && unchanged(db)
    ensures !IsNullOrWhiteSpace(text) && analyze(text.value).Success? ==>
      var a := analyze(text.value);
      && resp == Ok(AnalyzeResponse(old(db.nextId), a.value.summary, a.value.actions))
      && db.analyses == old(db.analyses) + [AnalysisRow(old(db.nextId), None, Some(DemoUser), text.value,
                                                       a.value.summary, Some(a.value.actions), old(db.clock))]
      && db.meetings == old(db.meetings) && db.transcripts == old(db.transcripts)
    ensures resp.Ok? ==>
      && hub.log[|hub.log| - 1] == ResultReady(resp.body.summary, resp.body.actions)
      && db.analyses[|db.analyses| - 1].id == resp.body.id
  {
    if IsNullOrWhiteSpace(text) {
      assert AnalyzeBroadcasts(text, analyze) == [];
      return Problem(BadRequestStatus);
    }
    resp := RunTextJob(hub, db, text.value, analyze);
  }

  /** The accepted text job: the three steps, then `StoreAndAnnounce`. */
  method RunTextJob(hub: Hub, db: Db, text: string, analyze: string -> Fallible<Analysis>)
    returns (resp: ActionResult<AnalyzeResponse>)
    requires db.Valid() && !IsNullOrWhiteSpace(Some(text))
    modifies hub, db
    ensures db.Valid()
    ensures hub.log == old(hub.log) + AnalyzeBroadcasts(Some(text), analyze)
    ensures analyze(text).Failure? ==> resp == ServerError(analyze(text).error) && unchanged(db)
    ensures analyze(text).Success? ==>
      var a := analyze(text).value;
      && resp == Ok(AnalyzeResponse(old(db.nextId), a.summary, a.actions))
      && db.analyses == old(db.analyses) + [AnalysisRow(old(db.nextId), None, Some(DemoUser), text,
                                                       a.summary, Some(a.actions), old(db.clock))]
      && db.meetings == old(db.meetings) && db.transcripts == old(db.transcripts)
  {
    ghost var sent := hub.log;
    hub.SendAll(ExtractTopicsStep);
    hub.SendAll(DecisionsStep);
    hub.SendAll(ActionsStep);
    assert hub.log == sent + AnalysisSteps;
    ghost var stepsSent := hub.log;
    resp := StoreAndAnnounce(hub, db, None, text, analyze);
    if resp.Ok? {
      var a := analyze(text).value;
      assert AnalyzeBroadcasts(Some(text), analyze) == AnalysisSteps + [ResultReady(a.summary, a.actions)];
      assert hub.log == stepsSent + [ResultReady(a.summary, a.actions)];
      SendInTurn(sent, AnalysisSteps, [ResultReady(a.summary, a.actions)]);
    } else {
      assert AnalyzeBroadcasts(Some(text), analyze) == AnalysisSteps;
    }
  }

  // ---------------------------------------------------------------------------
  // Reads

  /** The body of `GET api/analysis/latest`. */
  datatype LatestAnalysis = LatestAnalysis(
    id: nat, userId: Option<string>, summary: string, actions: seq<string>,
    rawNotes: string, createdAt: nat)

  /** `GET api/analysis/latest`: the newest analysis, its action list falling back
      to `[]` when the stored JSON is `null`; when there is none, `NotFound()`,
      which the framework answers with a 404 problem-details body. */
  function GetLatest(db: Db): (r: ActionResult<LatestAnalysis>)
    reads db
    ensures r.Problem? <==> db.analyses == []
    ensures r.Ok? || r == Problem(NotFoundStatus)
    ensures r.Ok? ==> exists i :: 0 <= i < |db.analyses| && r.body == LatestBody(db.analyses[i])
    ensures r.Ok? ==> forall i :: 0 <= i < |db.analyses| ==> db.analyses[i].createdAt <= r.body.createdAt
  {
    var sorted := NewestAnalysesFirst(db.analyses);
    if sorted == [] then Problem(NotFoundStatus)
    else
      var m := sorted[0];
      assert m in multiset(db.analyses);
      assert forall i :: 0 <= i < |db.analyses| ==> db.analyses[i] in multiset(sorted);
      Ok(LatestBody(m))
  }

  function LatestBody(m: AnalysisRow): LatestAnalysis {
    LatestAnalysis(m.id, m.userId, m.summary, m.actions.GetOr([]), m.rawNotes, m.createdAt)
  }

  /** A stored `null` action list reads back as `[]` from the latest endpoint. */
  lemma LatestFallsBackToNoActions(m: AnalysisRow)
    ensures m.actions.None? ==> LatestBody(m).actions == []
    ensures m.actions.Some? ==> LatestBody(m).actions == m.actions.value
  {
  }

  /** The body of `GET api/analysis/{id}`: the action list as stored, possibly `null`. */
  datatype StoredAnalysis = StoredAnalysis(
    id: nat, summary: string, actions: Option<seq<string>>, rawNotes: string, createdAt: nat)

  function StoredBody(m: AnalysisRow): StoredAnalysis {
    StoredAnalysis(m.id, m.summary, m.actions, m.rawNotes, m.createdAt)
  }

  /** `GET api/analysis/{id}`: the analysis with that id, or `NotFound()`, a 404
      problem-details body. */
  function GetById(db: Db, id: int): (r: ActionResult<StoredAnalysis>)
    reads db
    ensures r.Ok? || r == Problem(NotFoundStatus)
    ensures r.Ok? ==> r.body.id == id && exists i :: 0 <= i < |db.analyses| && r.body == StoredBody(db.analyses[i])
    ensures r.Problem? ==> forall i :: 0 <= i < |db.analyses| ==> db.analyses[i].id != id
  {
    FindAnalysis(db.analyses, id)
  }

  function FindAnalysis(rows: seq<AnalysisRow>, id: int): (r: ActionResult<StoredAnalysis>)
    ensures r.Ok? || r == Problem(NotFoundStatus)
    ensures r.Ok? ==> r.body.id == id && exists i :: 0 <= i < |rows| && r.body == StoredBody(rows[i])
    ensures r.Problem? ==> forall i :: 0 <= i < |rows| ==> rows[i].id != id
  {
    if rows == [] then Problem(NotFoundStatus)
    else if rows[0].id == id then Ok(StoredBody(rows[0]))
    else
      var r := FindAnalysis(rows[1..], id);
      if r.Ok? then
        var i :| 0 <= i < |rows[1..]| && r.body == StoredBody(rows[1..][i]);
        assert rows[i + 1] == rows[1..][i];
        r
      else r
  }

  /** `AnalysisListItemDto`. */
  datatype AnalysisListItem = AnalysisListItem(id: nat, summaryPreview: string, createdAt: nat)

  const ListPreviewLength: nat := 140

  function ListItem(m: AnalysisRow): AnalysisListItem {
    AnalysisListItem(m.id, Preview(m.summary, ListPreviewLength), m.createdAt)
  }

  function ListItems(rows: seq<AnalysisRow>): (r: seq<AnalysisListItem>)
    ensures |r| == |rows|
    ensures forall i :: 0 <= i < |r| ==> r[i] == ListItem(rows[i])
  {
    if rows == [] then [] else [ListItem(rows[0])] + ListItems(rows[1..])
  }

  /** The analyses the list endpoint shows: the newest `take` of them, newest
      first, each at most once, and all of them when `take` reaches the count. */
  function ListedRows(db: Db, take: int): (r: seq<AnalysisRow>)
    reads db
    ensures multiset(r) <= multiset(db.analyses)
    ensures |r| == if take <= 0 then 0 else if take < |db.analyses| then take else |db.analyses|
    ensures take >= |db.analyses| ==> multiset(r) == multiset(db.analyses)
    ensures forall i, j :: 0 <= i < j < |r| ==> r[i].createdAt >= r[j].createdAt
  {
    var sorted := NewestAnalysesFirst(db.analyses);
    TakeIsSubMultiset(sorted, take);
    Take(sorted, take)
  }

  /** `GET api/analysis?take=n`: the newest `take` analyses, newest first, each
      summary cut to a 140-character preview. */
  function GetMany(db: Db, take: int): (r: seq<AnalysisListItem>)
    reads db
    ensures |r| == if take <= 0 then 0 else if take < |db.analyses| then take else |db.analyses|
    ensures |r| == |ListedRows(db, take)|
    ensures forall i :: 0 <= i < |r| ==> r[i] == ListItem(ListedRows(db, take)[i])
    ensures forall i, j :: 0 <= i < j < |r| ==> r[i].createdAt >= r[j].createdAt
    ensures forall i :: 0 <= i < |r| ==> |r[i].summaryPreview| <= ListPreviewLength + 1
  {
    var kept := ListedRows(db, take);
    var r := ListItems(kept);
    forall i | 0 <= i < |r| ensures |r[i].summaryPreview| <= ListPreviewLength + 1 {
      PreviewShape(kept[i].summary, ListPreviewLength);
    }
    r
  }

  /** With `take` at least the count, every analysis is listed. */
  lemma AllAnalysesListed(db: Db, take: int, m: AnalysisRow)
    requires m in db.analyses && take >= |db.analyses|
    ensures m in ListedRows(db, take)
  {
    assert m in multiset(db.analyses);
    assert m in multiset(ListedRows(db, take));
  }

  /** An analysis that is not listed is no newer than any that is. */
  lemma LeftOutListedRowIsOlder(db: Db, take: int, m: AnalysisRow)
    requires m in db.analyses && m !in ListedRows(db, take)
    ensures forall i :: 0 <= i < |ListedRows(db, take)| ==> m.createdAt <= ListedRows(db, take)[i].createdAt
  {
    var sorted := NewestAnalysesFirst(db.analyses);
    assert m in multiset(sorted);
    TakeOfSortedIsLeast(sorted, AnalysisAge, take, m);
  }

  /** The list shows the newest analyses: every item previews a stored analysis;
      with `take` at least the count every analysis is listed; and an analysis
      that is left out is no newer than any listed one. */
  lemma GetManyListsNewest(db: Db, take: int, m: AnalysisRow)
    requires m in db.analyses
    ensures forall i :: 0 <= i < |GetMany(db, take)| ==>
      exists k :: 0 <= k < |db.analyses| && GetMany(db, take)[i] == ListItem(db.analyses[k])
    ensures take >= |db.analyses| ==> ListItem(m) in GetMany(db, take)
    ensures ListItem(m) !in GetMany(db, take) ==>
      forall i :: 0 <= i < |GetMany(db, take)| ==> m.createdAt <= GetMany(db, take)[i].createdAt
  {
    var kept := ListedRows(db, take);
    var r := GetMany(db, take);
    forall i | 0 <= i < |r|
      ensures exists k :: 0 <= k < |db.analyses| && r[i] == ListItem(db.analyses[k])
    {
      assert kept[i] in multiset(db.analyses);
    }
    if m in kept {
      var i :| 0 <= i < |kept| && kept[i] == m;
      assert r[i] == ListItem(m);
    } else {
      if take >= |db.analyses| {
        AllAnalysesListed(db, take, m);
      }
      LeftOutListedRowIsOlder(db, take, m);
    }
  }
}
