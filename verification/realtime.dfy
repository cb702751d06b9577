/** The SignalR `MeetingHub` as the controllers use it: `Clients.All.SendAsync`
    appends one event to a broadcast log that every connected client reads in order. */
module Realtime {

  /** The two client methods the server invokes, with their anonymous payloads
      `{ step, message }` and `{ summary, actions }`. */
  datatype HubEvent =
    | StepUpdate(step: string, message: string)
    | ResultReady(summary: string, actions: seq<string>)

  /** The fixed progress steps the analysis endpoints announce. */
  const TranscriptStep := StepUpdate("Transcript", "Loaded transcript from database...")
  const ExtractTopicsStep := StepUpdate("ExtractTopics", "Detecting key topics...")
  const DecisionsStep := StepUpdate("Decisions", "Identifying decisions...")
  const ActionsStep := StepUpdate("Actions", "Generating action items...")

  /** How many `resultReady` events a stretch of the log holds. */
  function CountResults(events: seq<HubEvent>): nat {
    if events == [] then 0
    else CountResults(events[..|events| - 1]) + (if events[|events| - 1].ResultReady? then 1 else 0)
  }

  lemma {:induction false} CountResultsAppend(a: seq<HubEvent>, b: seq<HubEvent>)
    ensures CountResults(a + b) == CountResults(a) + CountResults(b)
  {
    if b != [] {
      CountResultsAppend(a, b[..|b| - 1]);
      assert (a + b)[..|a + b| - 1] == a + b[..|b| - 1];
    } else {
      assert a + b == a;
    }
  }

  /** Sending `a` and then `b` leaves the log that sending `a + b` does. */
  lemma SendInTurn(log: seq<HubEvent>, a: seq<HubEvent>, b: seq<HubEvent>)
    ensures (log + a) + b == log + (a + b)
  {
  }

  /** A log of progress steps only holds no result. */
  lemma {:induction false} StepsHoldNoResult(events: seq<HubEvent>)
    requires forall i :: 0 <= i < |events| ==> events[i].StepUpdate?
    ensures CountResults(events) == 0
  {
    if events != [] {
      StepsHoldNoResult(events[..|events| - 1]);
    }
  }

  /** The hub as seen by the publishers: an append-only log of broadcast events. */
  class Hub {
    var log: seq<HubEvent>

    constructor ()
      ensures log == []
    {
      log := [];
    }

    /** `Clients.All.SendAsync(name, payload)`. */
    method SendAll(e: HubEvent)
      modifies this
      ensures log == old(log) + [e]
    {
      log := log + [e];
    }
  }
}
