/** The relational store (`AppDbContext`) as three tables held in insertion order.
    Ids are issued from one counter and `CreatedAtUtc` values from a monotone clock. */
module Store {
  import opened Common
  import opened Ordering

  /** `TranscriptSegment`: its position in the transcript and its text. */
  datatype SegmentRow = SegmentRow(index: int, text: string)

  /** `Transcript`; its segments are owned by it and deleted with it. */
  datatype TranscriptRow = TranscriptRow(
    id: nat, meetingId: nat, language: string, text: string,
    segments: seq<SegmentRow>, createdAt: nat)

  /** `Meeting`; its transcript is the `TranscriptRow` whose `meetingId` is its id. */
  datatype MeetingRow = MeetingRow(id: nat, userId: string, title: string, createdAt: nat)

  /** `MeetingAnalysis`. `actions` is the value `ActionsJson` deserialises to;
      `None` stands for a stored JSON `null`. */
  datatype AnalysisRow = AnalysisRow(
    id: nat, meetingId: Option<nat>, userId: Option<string>,
    rawNotes: string, summary: string, actions: Option<seq<string>>, createdAt: nat)

  /** The unique index on `(TranscriptId, SegmentIndex)`. */
  predicate DistinctIndices(segments: seq<SegmentRow>) {
    forall i, j :: 0 <= i < j < |segments| ==> segments[i].index != segments[j].index
  }

  function FindMeetingIn(rows: seq<MeetingRow>, id: int): (r: Option<MeetingRow>)
    ensures r.Some? ==> r.value in rows && r.value.id == id
    ensures r.None? ==> forall i :: 0 <= i < |rows| ==> rows[i].id != id
  {
    if rows == [] then None
    else if rows[0].id == id then Some(rows[0])
    else FindMeetingIn(rows[1..], id)
  }

  function TranscriptIn(rows: seq<TranscriptRow>, meetingId: int): (r: Option<TranscriptRow>)
    ensures r.Some? ==> r.value in rows && r.value.meetingId == meetingId
    ensures r.None? ==> forall i :: 0 <= i < |rows| ==> rows[i].meetingId != meetingId
  {
    if rows == [] then None
    else if rows[0].meetingId == meetingId then Some(rows[0])
    else TranscriptIn(rows[1..], meetingId)
  }

  /** The position of the meeting's transcript row. */
  function TranscriptIndexIn(rows: seq<TranscriptRow>, meetingId: int): (r: Option<nat>)
    ensures r.Some? ==> r.value < |rows| && rows[r.value].meetingId == meetingId
    ensures r.Some? <==> TranscriptIn(rows, meetingId).Some?
    ensures r.Some? ==> TranscriptIn(rows, meetingId).value == rows[r.value]
  {
    if rows == [] then None
    else if rows[0].meetingId == meetingId then Some(0)
    else
      var r := TranscriptIndexIn(rows[1..], meetingId);
      if r.Some? then Some(r.value + 1) else None
  }

  /** `rows` without its `k`-th row. */
  function RemoveAt<T>(rows: seq<T>, k: nat): (r: seq<T>)
    requires k < |rows|
    ensures |r| == |rows| - 1
    ensures forall i :: 0 <= i < |r| ==> r[i] == rows[if i < k then i else i + 1]
  {
    rows[..k] + rows[k + 1..]
  }

  /** Sort keys for `OrderByDescending(x => x.CreatedAtUtc)`: ascending on the negated stamp. */
  function AnalysisAge(r: AnalysisRow): int { 0 - r.createdAt as int }
  function MeetingAge(m: MeetingRow): int { 0 - m.createdAt as int }

  /** `analyses.OrderByDescending(a => a.CreatedAtUtc)`. */
  function NewestAnalysesFirst(rows: seq<AnalysisRow>): (r: seq<AnalysisRow>)
    ensures multiset(r) == multiset(rows) && |r| == |rows|
    ensures forall i, j :: 0 <= i < j < |r| ==> r[i].createdAt >= r[j].createdAt
  {
    SortBy(rows, AnalysisAge)
  }

  /** `meetings.OrderByDescending(m => m.CreatedAtUtc)`. */
  function NewestMeetingsFirst(rows: seq<MeetingRow>): (r: seq<MeetingRow>)
    ensures multiset(r) == multiset(rows) && |r| == |rows|
    ensures forall i, j :: 0 <= i < j < |r| ==> r[i].createdAt >= r[j].createdAt
  {
    SortBy(rows, MeetingAge)
  }

  /** The meetings with the title of meeting `id` replaced. */
  function Retitled(rows: seq<MeetingRow>, id: nat, title: string): (r: seq<MeetingRow>)
    ensures |r| == |rows|
    ensures forall i :: 0 <= i < |r| ==> r[i] == if rows[i].id == id then rows[i].(title := title) else rows[i]
  {
    seq(|rows|, i requires 0 <= i < |rows| => if rows[i].id == id then rows[i].(title := title) else rows[i])
  }

  class Db {
    var meetings: seq<MeetingRow>
    var transcripts: seq<TranscriptRow>
    var analyses: seq<AnalysisRow>
    var nextId: nat
    var clock: nat

    /** Ids are below the counter and increase along each table, every meeting has
        at most one transcript (the unique index on `Transcripts.MeetingId`) and
        segment indices are unique within a transcript. */
    ghost predicate Valid()
      reads this
    {
      && (forall i :: 0 <= i < |meetings| ==> meetings[i].id < nextId)
      && (forall i, j :: 0 <= i < j < |meetings| ==> meetings[i].id < meetings[j].id)
      && (forall i :: 0 <= i < |transcripts| ==> transcripts[i].id < nextId)
      && (forall i, j :: 0 <= i < j < |transcripts| ==> transcripts[i].id < transcripts[j].id)
      && (forall i :: 0 <= i < |analyses| ==> analyses[i].id < nextId)
      && (forall i, j :: 0 <= i < j < |analyses| ==> analyses[i].id < analyses[j].id)
      && (forall i, j :: 0 <= i < j < |transcripts| ==> transcripts[i].meetingId != transcripts[j].meetingId)
      && (forall i :: 0 <= i < |transcripts| ==> DistinctIndices(transcripts[i].segments))
    }

    constructor ()
      ensures Valid()
      ensures meetings == [] && transcripts == [] && analyses == []
    {
      meetings, transcripts, analyses := [], [], [];
      nextId, clock := 1, 0;
    }

    function FindMeeting(id: int): Option<MeetingRow>
      reads this
    {
      FindMeetingIn(meetings, id)
    }

    /** The meeting's transcript (`Include(m => m.Transcript)`). */
    function TranscriptOf(meetingId: int): Option<TranscriptRow>
      reads this
    {
      TranscriptIn(transcripts, meetingId)
    }

    /** `Meetings.Add` and `SaveChangesAsync`. */
    method AddMeeting(userId: string, title: string) returns (id: nat)
      requires Valid()
      modifies this
      ensures Valid()
      ensures id == old(nextId) && nextId == id + 1 && clock == old(clock) + 1
      ensures meetings == old(meetings) + [MeetingRow(id, userId, title, old(clock))]
      ensures transcripts == old(transcripts) && analyses == old(analyses)
    {
      id := nextId;
      meetings := meetings + [MeetingRow(id, userId, title, clock)];
      nextId, clock := nextId + 1, clock + 1;
    }

    /** Sets the title of the meeting with id `meetingId` (tracked entity + `SaveChangesAsync`). */
    method SetTitle(meetingId: nat, title: string)
      requires Valid()
      modifies this
      ensures Valid()
      ensures meetings == Retitled(old(meetings), meetingId, title)
      ensures transcripts == old(transcripts) && analyses == old(analyses)
      ensures nextId == old(nextId) && clock == old(clock)
    {
      meetings := Retitled(meetings, meetingId, title);
    }

    /** `Transcripts.Remove(t)` and `SaveChangesAsync` for the `k`-th transcript row;
        its segments go with it. */
    method RemoveTranscript(k: nat)
      requires Valid()
      requires k < |transcripts|
      modifies this
      ensures Valid()
      ensures transcripts == RemoveAt(old(transcripts), k)
      ensures meetings == old(meetings) && analyses == old(analyses)
      ensures nextId == old(nextId) && clock == old(clock)
    {
      transcripts := RemoveAt(transcripts, k);
    }

    /** `Transcripts.Add` and `SaveChangesAsync`. The unique indexes make the save
        fail when the meeting already has a transcript or two segments share an
        index; the write is then not made and `ok` is false. */
    method AddTranscript(meetingId: nat, language: string, text: string, segments: seq<SegmentRow>)
      returns (ok: bool, id: nat)
      requires Valid()
      modifies this
      ensures Valid()
      ensures ok <==> TranscriptIn(old(transcripts), meetingId).None? && DistinctIndices(segments)
      ensures ok ==> id == old(nextId) && nextId == id + 1 && clock == old(clock) + 1
      ensures ok ==> transcripts == old(transcripts) + [TranscriptRow(id, meetingId, language, text, segments, old(clock))]
      ensures !ok ==> transcripts == old(transcripts) && nextId == old(nextId) && clock == old(clock)
      ensures meetings == old(meetings) && analyses == old(analyses)
    {
      ok := TranscriptIn(transcripts, meetingId).None? && DistinctIndices(segments);
      id := nextId;
      if ok {
        transcripts := transcripts + [TranscriptRow(id, meetingId, language, text, segments, clock)];
        nextId, clock := nextId + 1, clock + 1;
      }
    }

    /** `MeetingAnalyses.Add` and `SaveChangesAsync`. */
    method AddAnalysis(meetingId: Option<nat>, userId: Option<string>, rawNotes: string,
                       summary: string, actions: seq<string>) returns (id: nat)
      requires Valid()
      modifies this
      ensures Valid()
      ensures id == old(nextId) && nextId == id + 1 && clock == old(clock) + 1
      ensures analyses == old(analyses) + [AnalysisRow(id, meetingId, userId, rawNotes, summary, Some(actions), old(clock))]
      ensures meetings == old(meetings) && transcripts == old(transcripts)
    {
      id := nextId;
      analyses := analyses + [AnalysisRow(id, meetingId, userId, rawNotes, summary, Some(actions), clock)];
      nextId, clock := nextId + 1, clock + 1;
    }
  }
}
