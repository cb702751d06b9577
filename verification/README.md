# Meeting assistant core, modelled in Dafny

This project models the core of a meeting-notes assistant. It has an ASP.NET backend and a React client.

- **Text analysis.** `POST api/analysis/analyze` takes free text and streams three progress steps over a SignalR hub. It runs an analyser, stores a `MeetingAnalysis` row, broadcasts the result and answers with it. The history endpoints read those rows back (`latest`, `by id`, a list with 140-character previews).
- **Meetings.** `api/meetings` creates meetings, each titled "New meeting" unless the request gives one. An audio upload replaces a meeting's transcript and can retitle the meeting automatically. Two jobs run over a stored transcript:
  - a simple analysis with four hub steps;
  - a detailed analysis whose action items are flattened to strings.

  Read models list the meetings and show one meeting with its transcript and its recent analyses.
- **Stub analyser.** `AnalysisService.Analyze` counts the space-separated words (clamped to 1..50) and returns a fixed list of three actions.
- **React hooks.** `useMeetingHub` drives the job from the hub events and the POST's outcome. `useTranscriptAnalysis`, `useMeetingTranscript` and `useAnalysisHistory` are small state machines around one request each.
- **Client API wrappers.** `normalizeMeetingAnalysis` reads either camelCase or PascalCase property names, `analyzeNotes` projects the analyse response, and `fetchMeetingTranscript` turns a 404 into "no transcript". `getErrorMessage` picks the text a failure shows.

How the model is built:

- **Database.** The database is the class `Store.Db`. It holds three tables as sequences in insertion order, an id counter and a monotone clock standing in for `DateTime.UtcNow`. Its invariant `Valid` holds the ordering of ids and the two unique indexes from the migration: one transcript per meeting, and unique segment indices per transcript.
- **Hub.** The hub is `Realtime.Hub`, an append-only log of the events sent to all clients.
- **Controller actions.** Each controller action is a method over the `Db` and the `Hub`. It returns an `ActionResult`: `Ok`, `BadRequest`, `NotFound`, `Problem` for a status the framework answers with its own problem-details body, or `ServerError` for an unhandled exception.
- **External calls.** The AI calls (`AnalyzeAsync`, `GenerateMeetingTitleAsync`, `AnalyzeTranscriptAsync`) and the transcription service are function parameters returning `Fallible` values. A failure there is an exception.
- **Client.** Each hook is a class whose methods are its handlers. `HttpClient.Serve` turns a controller result into what axios resolves or rejects with.

## Model

| member | source | states |
|---|---|---|
| AnalysisService.WordCount | App/backend/Application/Services/AnalysisService.cs:8 | the count is `max(1, min(50, n))`, where `n` is the number of non-empty pieces of the text split on `' '` |
| AnalysisService.SplitOnSpace | App/backend/Application/Services/AnalysisService.cs:8 | splitting on `' '` yields at least one piece, and no piece contains a space |
| AnalysisService.SplitJoinRoundTrip | App/backend/Application/Services/AnalysisService.cs:8 | joining the pieces of a split with `' '` gives back the text |
| AnalysisService.JoinSplitRoundTrip | App/backend/Application/Services/AnalysisService.cs:8 | splitting a join of space-free pieces gives back those pieces |
| AnalysisService.Words | App/backend/Application/Services/AnalysisService.cs:8 | the words (`RemoveEmptyEntries`) are non-empty and contain no space, and they are exactly the non-empty pieces of the split |
| AnalysisService.NonEmpty | App/backend/Application/Services/AnalysisService.cs:8 | every kept piece is non-empty and comes from the input, every non-empty piece is kept, and no more pieces are kept than given |
| AnalysisService.NonEmptyKeepsNonEmpty | App/backend/Application/Services/AnalysisService.cs:8 | a list of non-empty pieces is kept whole |
| AnalysisService.NonEmptyOfEmpties | App/backend/Application/Services/AnalysisService.cs:8 | a list of empty pieces leaves nothing |
| AnalysisService.NonEmptyAppend | App/backend/Application/Services/AnalysisService.cs:8 | dropping the empty pieces of two lists in turn keeps the non-empty pieces of both, in order |
| AnalysisService.JoinAppend | App/backend/Application/Services/AnalysisService.cs:8 | joining two lists of pieces puts one space between their joins |
| AnalysisService.SplitAtSpace | App/backend/Application/Services/AnalysisService.cs:8 | the pieces of a text with a space in it are the pieces of either side |
| AnalysisService.WordsAcrossSpace | App/backend/Application/Services/AnalysisService.cs:8 | the words of a text with a space in it are the words of either side in order, so extra spaces between words add no words |
| AnalysisService.WordsOfJoinedWords | App/backend/Application/Services/AnalysisService.cs:8 | words joined by single spaces are counted one by one |
| AnalysisService.OnlySpaceSeparates | App/backend/Application/Services/AnalysisService.cs:8 | a text with no `' '` is one word when non-empty, so tabs and newlines do not separate words |
| AnalysisService.SpacesHaveNoWords | App/backend/Application/Services/AnalysisService.cs:8 | a text made only of spaces has no words, so its reported count is the floor 1 |
| AnalysisService.SpacesSplitIntoEmpties | App/backend/Application/Services/AnalysisService.cs:8 | splitting only-space text gives only empty pieces |
| AnalysisService.Analyze | App/backend/Application/Services/AnalysisService.cs:5-17 | the actions are the three fixed items whatever the text; the summary's count is stated by `SummaryReportsWordCount` |
| AnalysisService.SummaryReportsWordCount | App/backend/Application/Services/AnalysisService.cs:8-9 | the number printed in the summary reads back as the clamped word count, between 1 and 50 |
| AnalysisService.ActionsIgnoreInput | App/backend/Application/Services/AnalysisService.cs:10-15 | any two texts get the same three actions |
| Text.TrimShape | App/backend/Api/Controllers/MeetingsController.cs:46 | the trimmed text is a slice of the input with no whitespace at either end, and the dropped ends are all whitespace |
| Text.TrimStartShape | App/backend/Api/Controllers/MeetingsController.cs:46 | the text after the leading whitespace: a suffix that does not start with whitespace, all of the dropped prefix being whitespace |
| Text.TrimEndShape | App/backend/Api/Controllers/MeetingsController.cs:46 | the text before the trailing whitespace: a prefix that does not end with whitespace, all of the dropped suffix being whitespace |
| Text.TrimEmptyIffBlank | App/backend/Api/Controllers/MeetingsController.cs:46 | trimming yields the empty text exactly for blank text (`IsNullOrWhiteSpace`) |
| Text.TrimIdempotent | App/backend/Api/Controllers/MeetingsController.cs:132 | trimming twice is trimming once |
| Text.TrimOfTrimmed | App/backend/Api/Controllers/MeetingsController.cs:119 | trimming a text with no whitespace at its ends changes nothing |
| Text.TrimOfNonBlank | App/backend/Api/Controllers/MeetingsController.cs:46 | a non-blank text trims to a non-blank text with no whitespace at its ends, which trimming leaves as it is |
| Text.ClipBounded | App/backend/Api/Controllers/MeetingsController.cs:126 | the first 2000 characters: a prefix of the text, no longer than the bound, the whole text when it fits |
| Text.PreviewShape | App/backend/Api/Controllers/MeetingsController.cs:151 | a short text is its own preview; a long one is its first n characters followed by "…" |
| Text.EqualsIgnoreCaseEquivalence | App/backend/Api/Controllers/MeetingsController.cs:119 | ordinal case-insensitive equality is reflexive, symmetric and transitive |
| Text.NatToString | App/backend/Application/Services/AnalysisService.cs:9 | the decimal rendering is a non-empty string of digits |
| Text.NatToStringRoundTrip | App/backend/Application/Services/AnalysisService.cs:9 | reading the decimal rendering back gives the number, and it has no leading zero |
| Ordering.InsertBy | App/backend/Api/Controllers/AnalysisController.cs:108-109 | inserting into a sorted list keeps it sorted and adds exactly the element |
| Ordering.SortBy | App/backend/Api/Controllers/AnalysisController.cs:108-109 | the result is sorted by the key and is a permutation of the input |
| Ordering.Take | App/backend/Api/Controllers/AnalysisController.cs:110 | `Take(n)`: the first `n` items, all of them when fewer, none when `n <= 0` |
| Ordering.TakeIsSubMultiset | App/backend/Api/Controllers/MeetingsController.cs:417 | a prefix holds part of the elements, and all of them when the bound reaches the length |
| Ordering.TakeOfSortedIsLeast | App/backend/Api/Controllers/AnalysisController.cs:108-110 | an element of a sorted list that is not taken has a key no smaller than any taken one |
| Ordering.Clamp | App/backend/Api/Controllers/MeetingsController.cs:342 | `Math.Clamp(v, lo, hi)` lies in `[lo, hi]` and is `v` when `v` does |
| Store.FindMeetingIn | App/backend/Api/Controllers/MeetingsController.cs:79-83 | the meeting found has the id; none found means no row has it |
| Store.TranscriptIn | App/backend/Api/Controllers/MeetingsController.cs:79-81 | the transcript found belongs to the meeting; none found means no row belongs to it |
| Store.TranscriptIndexIn | App/backend/Api/Controllers/MeetingsController.cs:89-91 | the position of the meeting's transcript row, present exactly when the transcript is |
| Store.RemoveAt | App/backend/Api/Controllers/MeetingsController.cs:91 | the rows without the k-th, the others in order |
| Store.NewestAnalysesFirst | App/backend/Api/Controllers/AnalysisController.cs:83-84 | a permutation of the rows with creation stamps descending |
| Store.NewestMeetingsFirst | App/backend/Api/Controllers/MeetingsController.cs:341 | a permutation of the rows with creation stamps descending |
| Store.Retitled | App/backend/Api/Controllers/MeetingsController.cs:132-133 | the meeting with the id gets the title, every other row is unchanged |
| Store.Db.constructor | App/backend/Migrations/20251218092655_AddMeetingsAndTranscripts.cs:75-85 | the empty store satisfies the key and unique-index invariant |
| Store.Db.AddMeeting | App/backend/Api/Controllers/MeetingsController.cs:50-51 | appends one meeting with a fresh id and the current stamp, keeping the invariant |
| Store.Db.SetTitle | App/backend/Api/Controllers/MeetingsController.cs:132-133 | only that meeting's title changes |
| Store.Db.RemoveTranscript | App/backend/Api/Controllers/MeetingsController.cs:89-94 | removes exactly one transcript row with its segments |
| Store.Db.AddTranscript | App/backend/Migrations/20251218092655_AddMeetingsAndTranscripts.cs:75-85 | the save succeeds exactly when the meeting has no transcript and the segment indices are distinct; a failed save changes nothing |
| Store.Db.AddAnalysis | App/backend/Api/Controllers/AnalysisController.cs:54-65 | appends one analysis with a fresh id, the current stamp and the serialised actions |
| Realtime.CountResultsAppend | App/backend/Api/Controllers/AnalysisController.cs:39-68 | the result events of a concatenation are those of its parts |
| Realtime.StepsHoldNoResult | App/backend/Api/Controllers/AnalysisController.cs:39-48 | a list of step events holds no result event |
| Realtime.Hub.constructor | App/backend/Api/Hubs/MeetingHub.cs:1-9 | the hub starts with nothing sent |
| Realtime.Hub.SendAll | App/backend/Api/Controllers/AnalysisController.cs:39-40 | `Clients.All.SendAsync` appends the event to what every client receives |
| AnalysisController.AnalyzeBroadcastOrder | App/backend/Api/Controllers/AnalysisController.cs:39-68 | an accepted job broadcasts ExtractTopics, Decisions, Actions, then exactly one result when the analyser succeeds and none when it fails |
| AnalysisController.RejectedAnalyzeIsSilent | App/backend/Api/Controllers/AnalysisController.cs:33-36 | blank text broadcasts nothing |
| AnalysisController.Analyze | App/backend/Api/Controllers/AnalysisController.cs:28-77 | blank or missing text is answered by model validation with a 400 problem-details body, with nothing stored or sent; otherwise the steps are broadcast; a failing analyser is a 500 with nothing stored; a success stores one row (demo user, no meeting) and answers with its id, summary and actions; 200 exactly when the text is non-blank and the analyser succeeds |
| AnalysisController.FallbackJobAlwaysCompletes | App/backend/Api/Controllers/AnalysisController.cs:51 | with an analyser that falls back to the local stub, every accepted job answers 200 and broadcasts exactly one result, carrying the fixed actions after an external failure |
| AnalysisController.GetLatest | App/backend/Api/Controllers/AnalysisController.cs:81-104 | a 404 problem-details answer exactly when nothing is stored; otherwise a stored analysis no older than any other |
| AnalysisController.LatestFallsBackToNoActions | App/backend/Api/Controllers/AnalysisController.cs:92-93 | a stored `null` action list is answered as an empty list |
| AnalysisController.FindAnalysis | App/backend/Api/Controllers/AnalysisController.cs:123-124 | the analysis with the id, or a 404 problem-details answer exactly when no row has it |
| AnalysisController.GetById | App/backend/Api/Controllers/AnalysisController.cs:121-134 | the body of the analysis with that id, its actions as stored (possibly `null`); a 404 problem-details answer exactly when no row has the id |
| AnalysisController.ListedRows | App/backend/Api/Controllers/AnalysisController.cs:108-110 | part of the stored analyses, each at most once, `take` of them (none for `take <= 0`, all when fewer exist), newest first, and all of them when `take` reaches the count |
| AnalysisController.AllAnalysesListed | App/backend/Api/Controllers/AnalysisController.cs:108-110 | with `take` at least the count, every stored analysis is listed |
| AnalysisController.LeftOutListedRowIsOlder | App/backend/Api/Controllers/AnalysisController.cs:108-110 | an analysis that is not listed is no newer than any listed one |
| AnalysisController.GetMany | App/backend/Api/Controllers/AnalysisController.cs:106-119 | item i is the preview of row i of `ListedRows`, so at most `take` items (none for `take <= 0`), newest first, each preview at most 140 characters plus the ellipsis |
| AnalysisController.GetManyListsNewest | App/backend/Api/Controllers/AnalysisController.cs:106-119 | every item previews a stored analysis; with `take` at least the count every analysis is listed; an analysis not listed is no newer than every listed one |
| MeetingsController.CreateTitleShape | App/backend/Api/Controllers/MeetingsController.cs:46 | the stored title is never blank and is trimmed; a non-blank request title is stored trimmed; normalising again changes nothing |
| MeetingsController.CreatedTitleIsDefaultIff | App/backend/Api/Controllers/MeetingsController.cs:117-119 | a created meeting is open to auto-titling exactly when its request title was blank or read "New meeting" in some casing |
| MeetingsController.AutoTitleRules | App/backend/Api/Controllers/MeetingsController.cs:117-141 | the title changes only for a default title, a non-blank transcript and a non-blank generated title, which is then stored trimmed; a failure keeps the title |
| MeetingsController.CustomTitleSticks | App/backend/Api/Controllers/MeetingsController.cs:117-121 | a title that is not default survives any upload, whatever the generator does |
| MeetingsController.Create | App/backend/Api/Controllers/MeetingsController.cs:41-54 | appends one meeting for the demo user with the normalised title and answers with its id, title and stamp |
| MeetingsController.WithoutTranscriptOf | App/backend/Api/Controllers/MeetingsController.cs:89-94 | the transcript rows without the meeting's own: exactly the table with that one row removed, the others in order, and the table itself when the meeting has none |
| MeetingsController.RetitledWithOwnTitle | App/backend/Api/Controllers/MeetingsController.cs:130-133 | writing back a meeting's own title changes nothing |
| MeetingsController.TranscriptOfAppended | App/backend/Api/Controllers/MeetingsController.cs:97-114 | after the old row is removed and the new one appended, the meeting's transcript is the new row |
| MeetingsController.UploadAudio | App/backend/Api/Controllers/MeetingsController.cs:71-153 | a missing file is answered by model validation with a 400 problem-details body and an empty file is rejected, both with nothing changed; an unknown meeting is NotFound; a transcription failure is a 500 with nothing changed; otherwise the old transcript goes, the new one becomes the meeting's, the title follows the auto-title rule, and the answer carries the 220-character preview; duplicate segment indices fail the save after the old transcript is gone |
| MeetingsController.MeetingAnalyzeExtendsTextAnalyze | App/backend/Api/Controllers/MeetingsController.cs:174-204 | the meeting job broadcasts a Transcript step followed by exactly what the text job broadcasts |
| MeetingsController.MeetingAnalyzeBroadcastOrder | App/backend/Api/Controllers/MeetingsController.cs:174-204 | four steps in order, then one result exactly when the analyser succeeds |
| MeetingsController.Analyze | App/backend/Api/Controllers/MeetingsController.cs:161-207 | unknown meeting, missing transcript and blank transcript are rejected with their messages and nothing sent; otherwise the steps are sent; a success stores one row linked to the meeting and answers with it; 200 exactly when the transcript is usable and the analyser succeeds |
| MeetingsController.ActionTextKeepsOwner | App/backend/Api/Controllers/MeetingsController.cs:297 | for the same task, two flattened items are equal exactly when their owners are equal |
| MeetingsController.FlattenActions | App/backend/Api/Controllers/MeetingsController.cs:296-298 | one string per action item, in order: the task, plus " (Owner: …)" when an owner is given |
| MeetingsController.SegmentsInOrder | App/backend/Api/Controllers/MeetingsController.cs:278-286 | the segments sorted by index, a permutation of the stored ones |
| MeetingsController.AnalyzeTranscript | App/backend/Api/Controllers/MeetingsController.cs:266-319 | unknown meeting is NotFound; no transcript is BadRequest; an analyser failure is a 500 with nothing stored; a success stores the flattened action items under the meeting's owner and answers with the new id, the meeting id and the analysis |
| MeetingsController.TranscriptBody | App/backend/Api/Controllers/MeetingsController.cs:244-257 | the body carries the transcript's ids, language, text, segment count, and segments ordered by index |
| MeetingsController.GetTranscript | App/backend/Api/Controllers/MeetingsController.cs:232-258 | "Meeting not found." exactly for an unknown meeting, "No transcript for this meeting." exactly when it has none, otherwise the transcript's body with its segments in index order |
| MeetingsController.AnalysesOf | App/backend/Api/Controllers/MeetingsController.cs:415 | exactly the analyses linked to the meeting |
| MeetingsController.LastAnalysisAtIsLatest | App/backend/Api/Controllers/MeetingsController.cs:348-352 | none exactly when the meeting has no analysis; otherwise the largest stamp among its analyses |
| MeetingsController.ListedMeetings | App/backend/Api/Controllers/MeetingsController.cs:339-342 | part of the stored meetings, each at most once, `take` clamped to 1..200 of them (fewer when fewer exist), newest first, and all of them when the clamped `take` reaches the count |
| MeetingsController.ListedItems | App/backend/Api/Controllers/MeetingsController.cs:343-354 | items made from part of the meetings, newest first, come from stored meetings, stay newest first and carry the transcript flag and the latest analysis stamp of their meeting |
| MeetingsController.ListedItemsAreStored | App/backend/Api/Controllers/MeetingsController.cs:343-354 | every listed item carries the id, title and stamp of a stored meeting |
| MeetingsController.AllMeetingsListed | App/backend/Api/Controllers/MeetingsController.cs:339-342 | with the clamped `take` at least the count, every meeting is listed |
| MeetingsController.LeftOutMeetingIsOlder | App/backend/Api/Controllers/MeetingsController.cs:339-342 | a meeting that is not listed is no newer than any listed one |
| MeetingsController.ListMeetings | App/backend/Api/Controllers/MeetingsController.cs:335-357 | item i is the list item of row i of `ListedMeetings`, a stored meeting: `take` clamped to 1..200 meetings (fewer when fewer exist), newest first, each with its id, title and stamp, whether it has a transcript, and its latest analysis stamp |
| MeetingsController.ListMeetingsListsNewest | App/backend/Api/Controllers/MeetingsController.cs:339-342 | with the clamped `take` at least the count every meeting is listed; a meeting left out of the list is no newer than any listed one |
| MeetingsController.RecentRows | App/backend/Api/Controllers/MeetingsController.cs:413-417 | part of the meeting's analyses, each at most once, min(count, 25) of them, newest first, and all of them when there are no more than 25 |
| MeetingsController.RecentAnalysesOf | App/backend/Api/Controllers/MeetingsController.cs:413-423 | the id, summary and stamp of each of those rows, in the same order, so min(count, 25) items, newest first, each from one of the meeting's analyses |
| MeetingsController.FewAnalysesAllKept | App/backend/Api/Controllers/MeetingsController.cs:413-417 | with no more than 25 analyses, each of the meeting's analyses is kept |
| MeetingsController.LeftOutAnalysisIsOlder | App/backend/Api/Controllers/MeetingsController.cs:413-417 | an analysis of the meeting that is not kept is no newer than any kept one |
| MeetingsController.RecentAnalysesAreNewest | App/backend/Api/Controllers/MeetingsController.cs:413-417 | with no more than 25 analyses every one is listed; an analysis left out is no newer than any listed one |
| MeetingsController.GetMeetingDetails | App/backend/Api/Controllers/MeetingsController.cs:379-432 | NotFound exactly for an unknown meeting; the transcript present exactly when the meeting has one, and equal to what the transcript endpoint answers; the analyses are `RecentAnalysesOf` of the meeting, whose selection `RecentAnalysesAreNewest` states |
| HttpClient.ErrorMessageSources | App/frontend/src/shared/errors/getErrorMessage.ts:3-18 | the fallback is used exactly for thrown non-`Error` values; a server body wins over axios's own message, `response.data.message` first and `response.data` next |
| HttpClient.Serve | App/frontend/src/features/meeting/meetingsApi.ts:102-114 | a 200 resolves with the body; a 400 or 404 rejects with its status and its text as the body; a problem-details answer rejects with its status; on a host outside Development, an unhandled exception rejects with no response and "Network Error", because the bare 500 carries no CORS header |
| HttpClient.ServedRejectionMessage | App/frontend/src/shared/errors/getErrorMessage.ts:3-18 | a 400 or 404 shows the server's own text; a server error shows "Network Error" whatever the fallback, on a host outside Development |
| MeetingApi.Coalesce | App/frontend/src/features/meeting/api.ts:42-44 | `a ?? b ?? d`: the first value present |
| MeetingApi.NormalizeRoundTrip | App/frontend/src/features/meeting/api.ts:38-46 | a complete record written in either spelling normalises back to itself |
| MeetingApi.NormalizePrecedence | App/frontend/src/features/meeting/api.ts:38-46 | for `actions`, `rawNotes` and `createdAtUtc` the camelCase value wins whenever present and the PascalCase one is read only in its absence; a present `summary` is kept; a missing value becomes empty; the id passes through |
| MeetingApi.AnalyzeNotesRoundTrip | App/frontend/src/features/meeting/api.ts:53-64 | `analyzeNotes` returns the server's id, summary and actions unchanged |
| MeetingApi.FetchByIdReadsStoredAnalysis | App/frontend/src/features/meeting/api.ts:48-51 | a stored analysis reads back as stored, with a `null` action list read as empty |
| MeetingApi.FetchMeetingTranscript | App/frontend/src/features/meeting/meetingsApi.ts:102-114 | a body resolves as present, a 404 resolves as `null`, and every other failure is rethrown unchanged |
| MeetingApi.FetchTranscriptNullIffMissing | App/frontend/src/features/meeting/meetingsApi.ts:102-114 | against the transcript endpoint the fetch never rejects, and yields `null` exactly when the meeting or its transcript is missing |
| MeetingHubClient.StepsOf | App/frontend/src/features/meeting/useMeetingHub.ts:31-33 | the step payloads among the events, no more of them than events |
| MeetingHubClient.ReceiveAllEffect | App/frontend/src/features/meeting/useMeetingHub.ts:31-40 | receiving events appends exactly their steps, leaves the connection flag and the error alone, and changes nothing else when no result arrives |
| MeetingHubClient.ReceiveAllAppend | App/frontend/src/features/meeting/useMeetingHub.ts:31-40 | receiving two batches is receiving their concatenation |
| MeetingHubClient.PostSettledCommutes | App/frontend/src/features/meeting/useMeetingHub.ts:74-85 | the POST's outcome and hub events without a result can arrive in either order with the same final state |
| MeetingHubClient.AnalyzeJobEndToEnd | App/frontend/src/features/meeting/useMeetingHub.ts:62-86 | a started job always ends not analysing; on success it shows the three steps, the summary and the actions with no error; on analyser failure the steps and "Failed to start analysis."; on blank text only that error |
| MeetingHubClient.BlankTestsDiffer | App/frontend/src/features/meeting/useMeetingHub.ts:63 | U+0085 passes the client's `trim()` test but the server rejects it; U+FEFF is never posted though the server would accept it |
| MeetingHubClient.NextLineBlankOnlyToServer | App/frontend/src/features/meeting/useMeetingHub.ts:63 | a text made of U+0085 is not blank to `trim()` but is blank to `IsNullOrWhiteSpace` |
| MeetingHubClient.ByteOrderMarkBlankOnlyToClient | App/frontend/src/features/meeting/useMeetingHub.ts:63 | a text made of U+FEFF is blank to `trim()` but not to `IsNullOrWhiteSpace` |
| MeetingHubClient.MeetingHubState.constructor | App/frontend/src/features/meeting/useMeetingHub.ts:14-19 | not connected, not analysing, nothing shown |
| MeetingHubClient.MeetingHubState.OnConnectionSettled | App/frontend/src/features/meeting/useMeetingHub.ts:42-51 | success marks the hook connected and clears the error; failure shows "Could not connect to realtime service." |
| MeetingHubClient.MeetingHubState.OnStepUpdate | App/frontend/src/features/meeting/useMeetingHub.ts:31-33 | appends the step |
| MeetingHubClient.MeetingHubState.OnResultReady | App/frontend/src/features/meeting/useMeetingHub.ts:36-40 | sets summary and actions and ends the analysis |
| MeetingHubClient.MeetingHubState.StartAnalysis | App/frontend/src/features/meeting/useMeetingHub.ts:62-80 | posts exactly when the trimmed text is non-empty, and then clears the previous run and starts analysing; otherwise nothing changes |
| MeetingHubClient.MeetingHubState.OnPostSettled | App/frontend/src/features/meeting/useMeetingHub.ts:81-85 | a failed POST shows "Failed to start analysis." and ends the analysis; a successful one changes nothing |
| TranscriptAnalysisHook.TranscriptAnalysisState.constructor | App/frontend/src/features/meeting/useTranscriptAnalysis.ts:11-13 | idle, no data, no error |
| TranscriptAnalysisHook.TranscriptAnalysisState.Run | App/frontend/src/features/meeting/useTranscriptAnalysis.ts:15-18 | starts exactly when the meeting id is present and non-zero, then loading with the error cleared and the data kept |
| TranscriptAnalysisHook.TranscriptAnalysisState.Complete | App/frontend/src/features/meeting/useTranscriptAnalysis.ts:19-28 | a result is stored and returned with status success; a failure shows its message (fallback "Failed to analyze transcript"), returns `null` and keeps stale data |
| TranscriptAnalysisHook.TranscriptAnalysisState.Reset | App/frontend/src/features/meeting/useTranscriptAnalysis.ts:37-41 | back to idle with no data and no error |
| MeetingTranscriptHook.LoadErrorMessage | App/frontend/src/features/meeting/useMeetingTranscript.ts:19-24 | an `Error`'s message as it is; a non-`Error`'s text, or "Failed to load transcript" when that is empty |
| MeetingTranscriptHook.LoadErrorIgnoresServerText | App/frontend/src/features/meeting/useMeetingTranscript.ts:19-24 | against `getErrorMessage`: for a 400 the hook shows axios's status message where `getErrorMessage` shows the server's text; for a server error on a host outside Development both show "Network Error" |
| MeetingTranscriptHook.MeetingTranscriptState.constructor | App/frontend/src/features/meeting/useMeetingTranscript.ts:8-10 | no data, not loading, no error |
| MeetingTranscriptHook.MeetingTranscriptState.Refresh | App/frontend/src/features/meeting/useMeetingTranscript.ts:12-15 | starts exactly when the meeting id is present and non-zero, then loading with the error cleared |
| MeetingTranscriptHook.MeetingTranscriptState.Settle | App/frontend/src/features/meeting/useMeetingTranscript.ts:16-28 | the body or `null` becomes the data; a failure clears the data and shows its message; loading always ends |
| AnalysisHistoryHook.AnalysisHistoryState.constructor | App/frontend/src/features/meeting/useAnalysisHistory.ts:6-8 | no items, not loading, no error |
| AnalysisHistoryHook.AnalysisHistoryState.Refresh | App/frontend/src/features/meeting/useAnalysisHistory.ts:10-12 | loading with the error cleared and the items kept |
| AnalysisHistoryHook.AnalysisHistoryState.Settle | App/frontend/src/features/meeting/useAnalysisHistory.ts:13-22 | a list replaces the items; a failure keeps them and shows "Could not load history."; loading always ends |
| AnalysisHistoryHook.HistoryShowsNewest | App/frontend/src/features/meeting/useAnalysisHistory.ts:5-16 | loaded from the list endpoint, the history is the previews of `ListedRows`: the newest `take` stored analyses, each at most once, newest first, every one of them when `take` reaches the count, each preview at most 141 characters |

## Left out

- SignalR transport. The connection registry, `MeetingHub.Ping`, reconnection and connection shutdown are not modelled. The hub is a log of what was sent to all clients, and every client is assumed to receive it in order.
- Delays and cancellation. `Task.Delay` between steps and `CancellationToken`s are left out. Cancellation would surface as an unhandled exception.
- External services. `TranscriptionService`, `AnalyzeAsync`, `GenerateMeetingTitleAsync` and `AnalyzeTranscriptAsync` are function parameters. Their own code is not part of this model.
- Analyser failure in the text job. The controller has no handler around `AnalyzeAsync`: a failure is a 500 after the three steps, nothing is stored and no result is broadcast. `AnalysisController.FallbackJobAlwaysCompletes` covers an `AnalyzeAsync` that itself falls back to the local stub.
- Floating point. `DurationSeconds` and segment start and end times are not modelled.
- Time. `DateTime` stamps are natural numbers from a clock that advances on every insert.
- JSON. `ActionsJson` is the deserialised `Option<seq<string>>`, not the JSON text.
- Strings. They are sequences of code points, not UTF-16 units. Case folding is ASCII-only, and `\s`-style whitespace follows the .NET and JavaScript tables for the code points listed in `Text`.
- Ids. One counter issues the ids of all three tables. This is stronger than per-table identity columns and does not change any contract.
- Persistence failures. Only the unique indexes are modelled. Other save failures and concurrency conflicts are left out.
- Ordering.SortBy: its stability is not stated. Ties on `CreatedAtUtc` are ordered arbitrarily by the database as well.
- Ordering.Take: for a negative `n` the model returns nothing, which matches LINQ's `Take`. The database provider's translation of a negative limit is not modelled.
- React rendering and `useEffect`. The hooks' automatic first refresh and the stale-closure effects of `useCallback` are not modelled.
- Reply ordering. The relative order of the HTTP reply and the hub events is not fixed. `MeetingHubClient.AfterJob` assumes the hub events arrive first, and `MeetingHubClient.PostSettledCommutes` shows that the order does not matter when no result is among the late events.
- HttpClient.Serve: a problem-details answer (a failed model validation, or `NotFound()` without a value) reaches the client with its status only. Its body is a JSON object without a `message` property, which `getErrorMessage` would hand back as it is; that object is not modelled (see `HttpClient.ErrorMessage` below).
- HttpClient.Serve: the host is assumed not to run in Development. In Development the developer exception page answers an unhandled exception instead. The CORS header, registered as a header callback before the exception, still goes out with that page. The client then sees status 500 with the exception text as `data`: `getErrorMessage` shows that text, and `useMeetingTranscript` shows "Request failed with status code 500". This case is not modelled, and the same assumption holds for `HttpClient.ServedRejectionMessage` and `MeetingTranscriptHook.LoadErrorIgnoresServerText`.
- HttpClient.ErrorMessage: `response.data` is modelled only as a string or absent. A JSON object body without a `message` property is not modelled.
- Nullable context. The project file is not part of this model. The implicit `[Required]` on `AnalyzeRequest.Text` and on the `IFormFile` parameter assumes that nullable reference types are enabled, as the `string?` annotations in the controllers and DTOs indicate.
- The other client wrappers (`uploadMeetingAudio`, `createMeeting`, the list and details fetchers) are thin `axios` calls. They are left out, because `HttpClient.Serve` covers what they return.
