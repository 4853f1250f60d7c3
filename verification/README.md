# Verified models of the code knowledge-graph backend

The backend ingests repositories into a code graph, answers questions about them
over streamed responses, and runs planning workflows over WebSockets. This project
models the parts of it that are algorithms, protocols or stores with laws of their
own, and proves those laws. `dafny verify dfyconfig.toml` checks everything.

| module | what it models |
|---|---|
| `SentinelQueue`, `FanIn`, `FanInRuns` | the two-level event fan-in behind a streamed multi-repository answer: every interleaving of N repository tasks, their two producers, their collectors and the response loop |
| `Utf16`, `Json`, `Sse`, `SseWire` | an answer sliced, JSON-escaped and framed as server-sent events, and a reader of that stream (section 9.2.6 of the WHATWG HTML Standard, section 7 of RFC 8259) |
| `Mermaid` | the regular-expression search for fenced diagrams |
| `TreeWalk` | the flag-driven loop over a syntax-tree cursor |
| `Recorder` (with `Lexical`, Python's order on strings) | recording model calls as numbered files, loading them in name order, replaying them by scope |
| `PendingChunks`, `PendingChunkFields` | saving and loading chunks with their symbol links: grouping, dedupe, batches of 500, flattening |
| `FailedChunks`, `FailedChunkRows` | the retry table of embedding failures, and rounds of retries over it |
| `Checkpoints`, `CheckpointTotals` | the file index: upsert, remaining files, resume over several sessions, the group-by summary |
| `Repositories`, `RepositoryRows` | the repository status machine, child rows and cascading deletion |
| `ModelCache`, `ModelCalls` | double-checked locking between any number of threads that load and clear |
| `McpTools`, `McpRegistry` | parallel connection to tool servers and the registry under mangled names |
| `Progress`, `ProgressReports` | the pipeline from worker threads over loop callbacks and a queue to the WebSocket |
| `BlobStore`, `BlobFacts` | local artifact files, their metadata side files, deletion of a session |
| `PlanDocuments`, `PlanOutcomes`, `PlanRequests`, `PlanLaws`, `PlanRuns` | upload with dedupe, links, deletion with the last link: one request by itself, then any number of requests under way at once, with commits, rollbacks and blobs that show at once |
| `Connections`, `ConnectionTables` | the connection, workflow, session and keepalive tables, event numbers, reconnects |

Concurrent code is a state machine: a datatype of steps, a total or guarded step
function, and theorems over every sequence of steps. Objects that update their
fields are classes whose methods state their whole new state; loops of the source
are loops here. Random ids, clocks, hashes, network outcomes and the order in which
a file system or database lists things are parameters of the steps.

## Findings

Where the code does something else than its documentation or evident intent, the
model follows the code and a lemma gives the input or the exact condition.

- A scoped replay miss consumes the next recording, although the documentation of
  `get_mock_response` reserves that for unscoped calls (`Recorder.ScopedMissFallsThrough`,
  `Recorder.OutOfScopeExactlyWhen`).
- `ProgressQueue.close` drops the end marker when the queue is full. If the schedule leaves
  the collector waiting while its workflow emits 100 or more progress texts, the response
  hangs, and so it does when a request names a repository twice
  (`FanInRuns.NeverHangsExactlyWhen`). The model's schedule is free: on a real event loop
  the collector waits only while the workflow does not suspend.
- Recordings from number 1000 on are written but never loaded
  (`Recorder.RecordingExactlyBelowLimit`), and neither are calls whose label cannot be part
  of a file name: their write fails (`Recorder.ReplaysAllExactlyWhen`).
- `FileIndexRepository.upsert` sets a column its model lacks, so updating an existing
  row fails. The model carries the column's presence as a parameter; with the
  shipped table a file that already has a row cannot be completed, and neither can a file
  without one when its repository has been deleted meanwhile
  (`Checkpoints.SessionCompletesExactlyWhen`).
- The upsert of pending chunks names a constraint that a table made by the migration lacks:
  there it has only a unique index of that name. In such a table, or for an unknown
  repository, every save that has something to store fails (`PendingChunks.SaveFailsExactlyWhen`).
- Saving a failed-chunk batch fails exactly when a chunk new to the table stands in it
  twice, because the session does not flush on its own, or when the repository does not
  exist, so that the foreign key rejects what is new (`FailedChunks.SaveFailsExactlyWhen`);
  clearing with an empty list clears the repository (`FailedChunks.ClearCounts`).
- The model cache's fast path can raise a key error when another thread clears
  between test and read; never, exactly when one thread at most uses the cache
  (`ModelCache.NoKeyErrorExactlyWhen`, `ModelCache.KeyErrorExactlyWhen`).
- The tool registry depends on the order of connection exactly when two servers that can be
  entered register one name differently (`McpTools.OrderIrrelevantExactlyWhen`), and a tool
  can be called on the wrong server exactly when one name is offered under two ids
  (`McpTools.RoutesExactlyWhen`); `connect_all` without `refresh` keeps old sessions
  (`McpTools.SuccessExactlyWhenConnected`).
- The bridge's counters are exact only for one thread (`Progress.CountsExactExactlyWhen`);
  an end marker put without waiting for the threads loses what is still pending
  (`Progress.LostIsWhatWasPending`).
- Artifact text is read in text mode, so it comes back unchanged exactly when it holds
  no carriage return (`BlobStore.NewlinesKeptExactlyWhen`); metadata is sticky until
  deletion (`BlobStore.RetrieveGivesLatest`).
  The filter of the local listing excludes nothing (`BlobStore.FilterPassesAll`), and
  the empty session id deletes every session (`BlobStore.OthersUntouchedExactlyWhen`).
- Two overlapping uploads of one file to one session, or a document that the planning nodes
  attach without the duplicate query, can leave two documents with one hash, after which
  every upload of that content fails (`PlanRuns.UploadsDistinctExactlyWhen`,
  `PlanRuns.ClearExactlyWhen`, `PlanDocuments.QueryFailsExactlyWhen`).
- Plan deletion removes the blob before its transaction commits, so a rollback leaves a row
  without its blob (`PlanLaws.StepKeptExactlyWhen`); two overlapping deletions of the last
  two links each see the other's and leave a row without links
  (`PlanLaws.StepLinkedExactlyWhen`); a failing upload leaves its blob
  (`PlanLaws.StepOwnedExactlyWhen`).
- A status update that skips validation, or a repository created elsewhere than at pending,
  takes a repository off the status machine (`Repositories.RunLawfulExactlyWhen`), and out
  of the five statuses no validated update leads back (`Repositories.ReadyReachableExactlyWhen`);
  otherwise ready stays reachable (`Repositories.LawfulStaysReady`).
- A client that connects again without a disconnect leaves a keepalive task nobody can
  cancel (`Connections.NoStrayKeepalivesExactlyWhen`), and a failing send can take down a
  newer connection of its client (`Connections.OwnThroughoutExactlyWhen`). Sends of one
  workflow that overlap can arrive out of order (`Connections.InOrderThroughoutExactlyWhen`).

## Model

| member | source | states |
|---|---|---|
| SentinelQueue.Take | graph_kb_api/routers/chat.py:718-731 | taking the head of a multi-producer queue keeps its bookkeeping; after a producer's sentinel nothing of that producer is left |
| SentinelQueue.Drained | graph_kb_api/routers/chat.py:721-731 | once every producer's sentinel has been taken the queue is empty |
| FanIn.RepoInvKept | graph_kb_api/routers/chat.py:655-752 | every step of a repository task keeps the invariant tying queue, flags, progress queue, producers, state and what was forwarded |
| FanIn.EndedRepoIsDrained | graph_kb_api/routers/chat.py:718-752 | a repository loop ends only with its queue empty, every node event and every accepted progress text forwarded in order, and the accumulated state merged |
| FanIn.UsefulStepEnabled | graph_kb_api/routers/chat.py:701-731 | unless the progress queue can overflow, an unfinished repository task always has a step other than a timeout |
| FanInRuns.InvKept | graph_kb_api/routers/chat.py:816-843 | every step of the whole system keeps the system invariant |
| FanInRuns.ExitMeansAllFinished | graph_kb_api/routers/chat.py:834-839 | the response loop exits only after every task's sentinel, and only if the ids are pairwise distinct |
| FanInRuns.ExitDeliversEverything | graph_kb_api/routers/chat.py:655-752 | at exit, under every interleaving, both levels of queues are empty and each repository's events have been yielded exactly once in its own order |
| FanInRuns.ExitPartitionsResults | graph_kb_api/routers/chat.py:749-855 | at exit the result slot holds exactly each repository's own result, and successful and failed partition the ids by whether that result has an answer |
| FanInRuns.ExitHoldsLastUpdates | graph_kb_api/routers/chat.py:686-752 | at exit each repository's slot holds its snapshot when there is a non-empty one, else under each key what the last yielded update with that key says; nothing when there is neither or set-up failed |
| FanInRuns.ExitAnswers | graph_kb_api/routers/chat.py:849-855 | at exit a repository is successful if and only if that state has a non-empty text under "final_output" or "llm_response"; the others are failed, in request order |
| FanInRuns.ExitCountsDequeues | graph_kb_api/routers/chat.py:834-843 | the number of reads from the shared queue is fixed by the event counts and the timeouts |
| FanInRuns.IdlesAreYielded | graph_kb_api/routers/chat.py:842-843 | each time-out of the response loop yields one keepalive |
| FanInRuns.RunsAreBounded | graph_kb_api/routers/chat.py:611-855 | in any run the steps that are not timeouts are bounded by the initial work and the timeouts |
| FanInRuns.NotStuck | graph_kb_api/routers/chat.py:834-843 | with distinct ids and fewer than 100 progress texts a workflow, a run that has not exited always has a step other than a timeout |
| FanInRuns.CanFinish | graph_kb_api/routers/chat.py:834-845 | with distinct ids and fewer than 100 progress texts a workflow, from every state of a run the exit stays reachable within the remaining work |
| FanInRuns.LostMarkerHangs | graph_kb_api/flows/v3/utils/progress_queue.py:88-94 | once the end marker is lost to a full queue no schedule reaches the exit |
| FanInRuns.NeverHangsExactlyWhen | graph_kb_api/routers/chat.py:834-838 | no schedule, however long it leaves a collector waiting, can hang if and only if the ids are distinct and every workflow emits fewer than 100 progress texts |
| Utf16.DecodesExactlyWhen | graph_kb_api/routers/chat.py:1149-1151 | UTF-16 gives a text back if and only if it holds no surrogate pair written as two code points |
| Json.DumpsRoundTrip | graph_kb_api/routers/chat.py:1151 | parsing a dumped object gives its members back, for all strings |
| Json.DumpsVisible | graph_kb_api/routers/chat.py:1151 | a dumped object is printable ASCII and so never breaks a line |
| Sse.StreamAnswer | graph_kb_api/routers/chat.py:1146-1151 | the loop frames exactly the 50-character slices of the answer, in order |
| Sse.SlicesPartition | graph_kb_api/routers/chat.py:1148-1150 | slices are non-empty, at most 50 long, as many as needed, and concatenate to the answer |
| Sse.FrameReceived | graph_kb_api/routers/chat.py:1151 | a framed one-line payload arrives as one message whatever follows |
| Sse.StreamReceived | graph_kb_api/routers/chat.py:1146-1151 | a stream of framed payloads decodes to exactly those payloads |
| SseWire.FrameText | graph_kb_api/routers/chat.py:1146-1151 | the text of every event of the stream, character by character around the escaped slice |
| SseWire.EscapeIs | graph_kb_api/routers/chat.py:1151 | how each UTF-16 unit is written: itself, a letter behind a backslash, or four hexadecimal digits with its value |
| SseWire.AnyBreakEndsALine | graph_kb_api/routers/chat.py:1151 | to a reader a line feed, a carriage return or both end one line |
| Sse.AnswerRoundTrip | graph_kb_api/routers/chat.py:1146-1151 | slicing, escaping, framing, receiving, parsing and joining give back the answer's UTF-16 always, and the answer itself exactly when it holds no split pair |
| Mermaid.MatchHereIsTheChoice | graph_kb_api/routers/chat.py:71 | the matcher finds a match if there is one: longest white space, then shortest body |
| Mermaid.FindIsLeftmost | graph_kb_api/routers/chat.py:72 | the search returns the leftmost match |
| Mermaid.ExtractsEveryMatch | graph_kb_api/routers/chat.py:65-72 | from any text there is one diagram for each of the successive leftmost matches, each searched for behind the one before, with none left behind the last; it is the body with only white space removed, at both ends |
| Mermaid.SuccessiveIsUnique | graph_kb_api/routers/chat.py:65-72 | a text has only one such list of matches |
| Mermaid.ExtractInvertsRender | graph_kb_api/routers/chat.py:65-72 | extraction returns exactly the rendered diagrams in order, for all trimmed fence-free diagrams between fence-free texts |
| Mermaid.ExtractedAreClean | graph_kb_api/routers/chat.py:65-72 | from any text, extracted diagrams are trimmed and fence-free |
| Mermaid.ExtractIsStable | graph_kb_api/routers/chat.py:65-72 | rendering what was extracted from any text and extracting again changes nothing |
| TreeWalk.Cursor.GotoFirstChild | graph_kb_api/graph_kb/parsing/language_parser.py:343 | moves to the first child exactly if there is one |
| TreeWalk.Cursor.GotoNextSibling | graph_kb_api/graph_kb/parsing/language_parser.py:345 | moves to the next sibling exactly if there is one |
| TreeWalk.Cursor.GotoParent | graph_kb_api/graph_kb/parsing/language_parser.py:347 | moves to the parent exactly if there is one |
| TreeWalk.WalkTree | graph_kb_api/graph_kb/parsing/language_parser.py:326-348 | the flag-driven loop yields the recursive preorder in exactly two iterations a node |
| TreeWalk.PreorderIsComplete | graph_kb_api/graph_kb/parsing/language_parser.py:326-334 | preorder lists exactly the nodes of the tree |
| TreeWalk.PreorderIsOrdered | graph_kb_api/graph_kb/parsing/language_parser.py:326-334 | preorder is strictly in document order |
| TreeWalk.WalkVisitsEveryNodeOnce | graph_kb_api/graph_kb/parsing/language_parser.py:326-348 | every node of any tree is visited exactly once, parents before children, siblings in order |
| Lexical.SortSorts | graph_kb_api/core/llm_recorder.py:216 | sorting distinct names gives the same names in strictly rising order |
| Lexical.SortedIsUnique | graph_kb_api/core/llm_recorder.py:216 | a strictly rising list is determined by its members, so the listing order does not matter |
| Recorder.LLMRecorder.RecordCall | graph_kb_api/core/llm_recorder.py:167-196 | in record mode with a directory, moves the counter and, if the label can be part of a file name, writes one file and one manifest line; else does nothing |
| Recorder.LLMRecorder.LoadMockEntries | graph_kb_api/core/llm_recorder.py:212-220 | loads the three-digit files in name order |
| Recorder.LLMRecorder.GetMockResponse | graph_kb_api/core/llm_recorder.py:223-291 | serves the next recording in scope, else the next one, and moves the cursor past it |
| Recorder.LLMRecorder.RewindMockRun | graph_kb_api/core/llm_recorder.py:153-163 | restarts replay from the first recording, in mock mode only |
| Recorder.ServedIncrease | graph_kb_api/core/llm_recorder.py:247-291 | served indices strictly increase |
| Recorder.ServesFirstMatch | graph_kb_api/core/llm_recorder.py:223-291 | with both labels given the first recording at or after the cursor that has both is served, with one given the first that has it, else and without labels the one at the cursor |
| Recorder.GreedyStaysAhead | graph_kb_api/core/llm_recorder.py:247-282 | greedy replay serves every call in scope, at or before the place any assignment gives it |
| Recorder.GreedyIsComplete | graph_kb_api/core/llm_recorder.py:237-282 | every call is served in its scope if and only if some strictly increasing assignment of recordings to calls exists |
| Recorder.OutOfScopeExactlyWhen | graph_kb_api/core/llm_recorder.py:284-291 | a call is served out of scope if and only if recordings remain and none of them is in scope |
| Recorder.ScopedMissFallsThrough | graph_kb_api/core/llm_recorder.py:232-291 | a concrete scoped miss that consumes an unrelated recording |
| Recorder.RecordingExactlyBelowLimit | graph_kb_api/core/llm_recorder.py:188-216 | the loading pattern accepts a recording's name if and only if its number is at most 999 |
| Recorder.NameReads | graph_kb_api/core/llm_recorder.py:188-189 | a file name is the number in at least three digits, the phase and the step |
| Recorder.LoadReadsInOrder | graph_kb_api/core/llm_recorder.py:212-220 | loading reads each file whose name is three digits, an underscore, anything and ".json" once, in rising order of the names |
| Recorder.WrittenAre | graph_kb_api/core/llm_recorder.py:167-196 | the recordings of a run that were written are exactly the file-safe ones, numbered by their place in the run |
| Recorder.ManifestLists | graph_kb_api/core/llm_recorder.py:194-196 | the manifest lists the written calls in order with number, labels and file name |
| Recorder.DirectoryHolds | graph_kb_api/core/llm_recorder.py:167-196 | after any run of recorded calls the loadable names are those of the written calls numbered at most 999, and none is overwritten |
| Recorder.RecordThenLoad | graph_kb_api/core/llm_recorder.py:178-221 | after any run of recorded calls, loading gives exactly the written recordings numbered at most 999, in call order, whatever the listing order |
| Recorder.LoadTellsRun | graph_kb_api/core/llm_recorder.py:167-221 | after any run, each of the first 999 calls without slash and NUL in its labels has one loaded entry with its number, step, phase and output, in call order, and there is no other |
| Recorder.RecordLoadReplay | graph_kb_api/core/llm_recorder.py:178-291 | replaying the labels of the written calls serves the loadable recordings one by one without skips, then nothing |
| Recorder.ReplaysAllExactlyWhen | graph_kb_api/core/llm_recorder.py:178-291 | replaying all labels of a run serves each of its first 999 calls its own recording if and only if all their labels can be part of a file name |
| Recorder.ReplayAnswers | graph_kb_api/core/llm_recorder.py:167-291 | recording at most 999 calls with plain labels, loading and replaying the labels returns their outputs one by one |
| Recorder.ReplayAnswersWritten | graph_kb_api/core/llm_recorder.py:167-291 | in any run, replaying the labels of the written calls returns the output of each that is numbered at most 999 and nothing for the others |
| PendingChunks.GroupLinks | graph_kb_api/database/metadata_service.py:401-404 | groups the links by chunk, order kept |
| PendingChunks.PendingChunkStore.Upsert | graph_kb_api/database/repositories.py:933-957 | one statement replaces rows with the same key in place and appends the others in order; with any row it fails without its constraint or for an unknown repository |
| PendingChunks.PendingChunkStore.UpsertAll | graph_kb_api/database/repositories.py:930-960 | batches of 500 have the effect of appending all rows in order, or of nothing when the first fails |
| PendingChunks.PendingChunkStore.Save | graph_kb_api/database/repositories.py:873-963 | replaces the repository's rows by the first occurrence of each non-empty id and returns their number, or fails and commits nothing |
| PendingChunks.PendingChunkStore.Get | graph_kb_api/database/repositories.py:966-998 | returns the repository's rows in id order |
| PendingChunks.PendingChunkStore.SavePendingChunks | graph_kb_api/database/metadata_service.py:379-430 | stores the chunks with their grouped links, or fails and commits nothing |
| PendingChunks.PendingChunkStore.GetPendingChunks | graph_kb_api/database/metadata_service.py:432-476 | returns the stored chunks and their flattened links |
| PendingChunks.FreshIsAppended | graph_kb_api/database/repositories.py:930-960 | rows with new keys are appended in order |
| PendingChunks.DedupeKeepsFirsts | graph_kb_api/database/repositories.py:900-928 | what survives dedupe is, in input order, the chunk at the first position of each non-empty id |
| PendingChunks.SavedItems | graph_kb_api/database/repositories.py:891-960 | after a save the repository holds exactly the new items and every other repository what it held |
| PendingChunks.SaveFailsExactlyWhen | graph_kb_api/database/repositories.py:891-960 | a save fails if and only if some chunk has an id, and the repository does not exist or the table lacks the constraint that the upsert names |
| PendingChunks.FlatLinksOfChunk | graph_kb_api/database/metadata_service.py:463-474 | the loaded links of a saved chunk are its input links in input order; other chunks have none |
| PendingChunks.RegroupedLinks | graph_kb_api/database/metadata_service.py:401-474 | the loaded links are a stable regrouping, multiset-equal to the links whose chunk was saved |
| PendingChunks.SaveThenLoad | graph_kb_api/database/metadata_service.py:379-476 | loading after saving gives the first occurrence of each non-empty id in input order with its persisted fields, and the stable regrouping of exactly the saved chunks' links; a save that fails changes nothing |
| PendingChunkFields.SavedItemsDescribe | graph_kb_api/database/metadata_service.py:393-427 | a saved item has the chunk's fields, its own metadata before the five derived entries, and one symbol for each of its links, in link order |
| PendingChunkFields.UpsertReplacesInPlace | graph_kb_api/database/repositories.py:933-954 | in one statement a row whose key is in the batch keeps place and id and takes the item; other rows stay |
| PendingChunkFields.LinksFollowItems | graph_kb_api/database/metadata_service.py:463-474 | the loaded links come in the order of the items they belong to |
| FailedChunks.FailedChunkStore.Save | graph_kb_api/database/repositories.py:1048-1123 | increments known chunks and inserts new ones, all or nothing; a repeated new key or an unknown repository fails the flush |
| FailedChunks.FailedChunkStore.Get | graph_kb_api/database/repositories.py:1125-1163 | returns the repository's chunks below the retry limit |
| FailedChunks.FailedChunkStore.Clear | graph_kb_api/database/repositories.py:1179-1203 | deletes the named chunks, or all of the repository's for no or an empty list |
| FailedChunks.FailedChunkStore.DeleteRepository | graph_kb_api/database/models.py:108-112 | deleting a repository deletes its rows and no others |
| FailedChunks.SaveFailsExactlyWhen | graph_kb_api/database/repositories.py:1069-1119 | a save fails if and only if a chunk new to the table occurs in it, and occurs twice or belongs to a repository that does not exist |
| FailedChunks.SaveCounts | graph_kb_api/database/repositories.py:1069-1119 | a save raises each count by the chunk's occurrences and touches no other repository |
| FailedChunks.ClearCounts | graph_kb_api/database/repositories.py:1189-1199 | clearing zeroes exactly the named chunks of the repository, or all of them for an empty list |
| FailedChunks.CountIsSavesSinceClear | graph_kb_api/database/repositories.py:1048-1203 | in every run, with repositories created and deleted and with saves that fail, a chunk's count is the number of saves it appeared in since it was last cleared, by itself or with its repository |
| FailedChunks.FetchedExactlyWhen | graph_kb_api/database/repositories.py:1137-1144 | a chunk is handed out if and only if its count is positive and below the limit |
| FailedChunks.HandOutsBounded | graph_kb_api/database/repositories.py:1069-1144 | a chunk saved again after every hand-out is handed out at most max_retries - 1 times before it is cleared |
| FailedChunks.RoundDecreases | graph_kb_api/database/repositories.py:1069-1203 | every round that re-saves or clears each chunk of a non-empty batch strictly lowers the remaining retries |
| FailedChunks.RoundsEnd | graph_kb_api/database/repositories.py:1069-1203 | any sequence of such rounds is no longer than the retries that were left |
| FailedChunkRows.RowTellsHistory | graph_kb_api/database/repositories.py:1069-1119 | in every run a chunk's row has the path and lines of the first save that worked since it was last cleared, and the content, type, language, metadata and error of the last; it counts those saves |
| FailedChunkRows.FetchInIdOrder | graph_kb_api/database/repositories.py:1137-1163 | a fetch returns the repository's rows below the limit, each once, in rising order of ids |
| Checkpoints.FileIndexStore.Upsert | graph_kb_api/database/repositories.py:571-632 | inserts a row of an existing repository or replaces the row of its key, or fails and changes nothing |
| Checkpoints.FileIndexStore.MarkCompleted | graph_kb_api/database/repositories.py:663-688 | stores the row if the upsert works; afterwards the file counts as completed |
| Checkpoints.FileIndexStore.MarkFailed | graph_kb_api/database/repositories.py:690-711 | stores the error message if the upsert works; afterwards the file does not count as completed |
| Checkpoints.FileIndexStore.Clear | graph_kb_api/database/repositories.py:776-788 | deletes the repository's rows and counts them |
| Checkpoints.FileIndexStore.GetProcessedFiles | graph_kb_api/database/repositories.py:649-661 | returns exactly the completed paths |
| Checkpoints.FileIndexStore.GetRemainingFiles | graph_kb_api/database/repositories.py:851-862 | returns the files not completed, order and repetitions kept |
| Checkpoints.FileIndexStore.GetCheckpointProgress | graph_kb_api/database/repositories.py:713-774 | whatever the group order, the summary holds the five counts, their sum, and the totals over completed rows |
| Checkpoints.UpsertFinds | graph_kb_api/database/repositories.py:571-647 | a later lookup finds what was upserted, and no other key changes; an upsert that fails changes nothing |
| Checkpoints.BucketsSum | graph_kb_api/database/repositories.py:723-774 | the five buckets sum to the row count |
| Checkpoints.GroupingCounts | graph_kb_api/database/repositories.py:723-756 | group-by counts are the direct counts |
| CheckpointTotals.UpsertMovesSummary | graph_kb_api/database/repositories.py:571-774 | an upsert that works puts the row's share of the five counts and two totals in place of the share of the row it replaces, and moves no other repository's summary |
| CheckpointTotals.DropEmptiesSummary | graph_kb_api/database/repositories.py:713-788 | clearing a repository empties its summary and no other |
| CheckpointTotals.LiveBetween | graph_kb_api/database/models.py:108-178 | during a schedule a repository exists exactly from a creation to the next deletion |
| Checkpoints.RemainingPartitions | graph_kb_api/database/repositories.py:649-862 | processed and remaining files partition any file list |
| Checkpoints.SessionCompletesOnce | graph_kb_api/database/repositories.py:663-711 | within a session an open file is completed at most once |
| Checkpoints.ResumeCompletesOnce | graph_kb_api/database/repositories.py:649-862 | over any schedule of sessions on remaining files, with the index cleared and the repository deleted and created in between, each file is completed at most once since the last clearing, and exactly once if it no longer remains |
| Checkpoints.SessionCompletesExactlyWhen | graph_kb_api/database/repositories.py:596-632 | a session completes a file if and only if that is its outcome and it had no row while its repository exists, or had one while the table has the modification-time column |
| Repositories.RepositoryStore.CreateRepository | graph_kb_api/database/repositories.py:92-135 | adds a repository with the given status and message, once per id |
| Repositories.RepositoryStore.UpdateRepositoryStatus | graph_kb_api/database/repositories.py:152-213 | overwrites status and message; validated, only of a known repository along the allowed transitions |
| Repositories.RepositoryStore.InsertChild | graph_kb_api/database/models.py:90-112 | a child row needs a live repository |
| Repositories.RepositoryStore.DeleteRepository | graph_kb_api/database/repositories.py:240-258 | deletes the repository and its child rows |
| Repositories.RunsStayConsistent | graph_kb_api/database/models.py:90-112 | in every run every child row references a live repository |
| Repositories.DeleteRemovesExactly | graph_kb_api/database/repositories.py:240-258 | deletion removes exactly the repository and its own rows of the five child tables, so that the id starts afresh |
| RepositoryRows.RowIsLastWritten | graph_kb_api/database/repositories.py:92-258 | after any run a repository has a status and message if and only if some creation or accepted update wrote them and none was written or the repository deleted since; validated updates are accepted along exactly ten pairs of statuses |
| RepositoryRows.ChildIsKept | graph_kb_api/database/models.py:90-112 | a child row is there if and only if it was added while its repository existed and that was not deleted since |
| Repositories.RunLawfulExactlyWhen | graph_kb_api/database/repositories.py:152-213 | all status changes of a run follow the machine if and only if repositories are created pending and no update that skips validation would have failed it |
| Repositories.ReadyWasIndexing | graph_kb_api/database/repositories.py:171-199 | if all status changes follow the machine, what is ready or paused has been indexing before, and was not deleted since |
| Repositories.ReadyReachableExactlyWhen | graph_kb_api/database/repositories.py:171-199 | after any run validated updates can bring a repository to ready if and only if its status is one of the five |
| Repositories.LawfulStaysReady | graph_kb_api/database/repositories.py:152-213 | after any run whose status changes all follow the machine, validated updates can bring every repository there is to ready |
| ModelCache.CacheKeyInjective | graph_kb_api/core/model_cache.py:58-59 | two requests share a key if and only if model name and resolved device agree |
| ModelCache.ResolveDevice | graph_kb_api/core/model_cache.py:86-139 | "cuda" if and only if it works and it or nothing was asked for, "mps" if and only if it works and it was asked for, or nothing and there is no "cuda"; else "cpu" |
| ModelCache.InvKept | graph_kb_api/core/model_cache.py:58-145 | every step of any thread keeps the lock and cache invariant |
| ModelCache.OneLoaderAtATime | graph_kb_api/core/model_cache.py:67-84 | at most one thread is loading at any time |
| ModelCache.LoadsBoundedByClears | graph_kb_api/core/model_cache.py:67-145 | successful loads of a key number at most one more than the clears |
| ModelCache.SameModelWithoutClears | graph_kb_api/core/model_cache.py:58-84 | without clears every caller of a key gets the same instance and none an error |
| ModelCache.KeyErrorExactlyWhen | graph_kb_api/core/model_cache.py:62-64 | the fast path fails if and only if the cache was cleared after the key had been found and the key was not loaded again since |
| ModelCache.NoKeyErrorExactlyWhen | graph_kb_api/core/model_cache.py:58-145 | no run ever fails there if and only if at most one thread uses the cache |
| ModelCalls.EveryCallIsAnswered | graph_kb_api/core/model_cache.py:58-84 | in every run each call of a thread for a key has returned a model for it, has failed, or is still under way |
| ModelCalls.ClearsAreCounted | graph_kb_api/core/model_cache.py:141-145 | the clears counted are those carried out, and each leaves the cache empty |
| McpTools.MCPService.DisconnectAll | graph_kb_api/services/mcp_service.py:428-441 | drops all sessions and tools |
| McpTools.MCPService.DiscoverTools | graph_kb_api/services/mcp_service.py:280-341 | registers the server's tools that pass its filter under mangled names, with description and input schema |
| McpTools.MCPService.ConnectAll | graph_kb_api/services/mcp_service.py:127-179 | connects all servers in parallel, under every completion order, and reports each result; without servers only clears the tools |
| McpTools.MCPService.Refresh | graph_kb_api/services/mcp_service.py:443-452 | disconnects, then connects from no sessions |
| McpTools.MCPService.InvokeTool | graph_kb_api/services/mcp_service.py:367-403 | calls the tool's own server under its original name, or says what is missing |
| McpTools.ClashExactlyWhen | graph_kb_api/services/mcp_service.py:324-341 | two server ids can produce one tool name if and only if one id with its separator starts the other |
| McpTools.SafeIdsDoNotClash | graph_kb_api/services/mcp_service.py:324-341 | ids without a double underscore and without a final underscore never clash |
| McpTools.OrderIrrelevantExactlyWhen | graph_kb_api/services/mcp_service.py:127-341 | every completion order gives the same registry if and only if no two servers that can be entered register one name differently |
| McpTools.RoutesExactlyWhen | graph_kb_api/services/mcp_service.py:280-403 | every tool of every connected server is called on that server under its own name, under every order, if and only if no name is offered under two ids |
| McpTools.AgreeExactlyWhen | graph_kb_api/services/mcp_service.py:280-341 | with distinct ids the first condition means that no name is offered twice |
| McpTools.SafeIdsSuffice | graph_kb_api/services/mcp_service.py:324-341 | distinct ids that cannot clash meet both conditions |
| McpTools.RegistryIndependentOfOrder | graph_kb_api/services/mcp_service.py:127-403 | so with distinct ids that cannot clash every order gives the same registry, with every tool under its own server |
| McpTools.RegistryHoldsExactly | graph_kb_api/services/mcp_service.py:127-341 | under every order the registered names are exactly those of the tools that connected servers list and the filter of their id lets pass |
| McpTools.SuccessExactlyWhenConnected | graph_kb_api/services/mcp_service.py:127-153 | a server has a session if and only if it reports success or had a session before |
| McpRegistry.EveryEntryIsATool | graph_kb_api/services/mcp_service.py:264-341 | under every order each entry is that of a tool of a connected server which the first filter configured for its id lets pass, the last of its name in the listing, with prefixed name, own name, server id, description or its substitute, and schema |
| McpRegistry.EveryToolHasAnEntry | graph_kb_api/services/mcp_service.py:264-341 | and each such tool has its name registered |
| McpRegistry.SessionsAre | graph_kb_api/services/mcp_service.py:127-260 | an id has a session if and only if it had one or some server with it has a known transport with its endpoint and lets the client in |
| McpRegistry.ReportIs | graph_kb_api/services/mcp_service.py:127-179 | the report has exactly the configured ids, each with the outcome of the last server with the id |
| Progress.ThreadSafeBridge.Send | graph_kb_api/websocket/progress.py:88-125 | schedules and counts the event, or drops and counts it when the loop is closed; never fails |
| Progress.CallIsThreeSteps | graph_kb_api/websocket/progress.py:88-125 | the uninterrupted call is the three steps of the thread model |
| Progress.ConsumeProgressQueue | graph_kb_api/websocket/progress.py:163-223 | the consumer forwards exactly what precedes the first end marker and counts events and failed sends |
| Progress.AcceptedIsConserved | graph_kb_api/websocket/progress.py:88-223 | in every reachable state the accepted events are, in order, the forwarded, then the queued, then the pending ones |
| Progress.ForwardedIsBeforeSentinel | graph_kb_api/websocket/progress.py:163-178 | a stopped consumer has forwarded exactly the events enqueued before the first end marker, in order |
| Progress.LostIsWhatWasPending | graph_kb_api/websocket/handlers/ingest.py:412-420 | what the end marker overtakes is exactly what was pending when it was put |
| Progress.WaitingLosesNothing | graph_kb_api/websocket/handlers/ingest.py:309-420 | if the marker is put after every thread's return was reported, every accepted event is forwarded |
| Progress.CountersAreLowerBounds | graph_kb_api/websocket/progress.py:94-124 | the counters never exceed the accepted and refused calls |
| Progress.CountsExactExactlyWhen | graph_kb_api/websocket/progress.py:94-124 | sent plus dropped is the number of calls in every settled state of every run if and only if at most one thread uses the bridge |
| ProgressReports.ReturnsAreReported | graph_kb_api/websocket/handlers/ingest.py:309-420 | a thread is reported as returned, or its report is pending, if and only if it returned while the loop was open |
| ProgressReports.FailuresAreCounted | graph_kb_api/websocket/progress.py:163-223 | the failure count is the number of the consumer's sends that ended undelivered |
| BlobStore.LocalFilesystemBackend.Store | graph_kb_api/storage/blob_storage.py:156-186 | writes the file, and the side file only for non-empty metadata |
| BlobStore.LocalFilesystemBackend.Retrieve | graph_kb_api/storage/blob_storage.py:188-225 | returns content, content type and the side file's metadata |
| BlobStore.LocalFilesystemBackend.Delete | graph_kb_api/storage/blob_storage.py:227-242 | removes the file and its side file, and says whether the file existed |
| BlobStore.LocalFilesystemBackend.ListDirectory | graph_kb_api/storage/blob_storage.py:248-261 | returns in rising order exactly the files under the directory, side files too |
| BlobStore.LocalFilesystemBackend.DeleteSessionArtifacts | graph_kb_api/storage/blob_storage.py:893-911 | for any files and any id, leaves exactly those outside the directory the id leads to and counts each path that was still there in its turn |
| BlobStore.FilterPassesAll | graph_kb_api/storage/blob_storage.py:257 | the listing's filter rejects no path |
| BlobStore.PresentExactlyWhenCounted | graph_kb_api/storage/blob_storage.py:904-908 | in its turn a listed path still exists if and only if no counted file took it along as its side file |
| BlobStore.RunKeepsSidesBeside | graph_kb_api/storage/blob_storage.py:156-242 | in every run a side file exists only beside its artifact |
| BlobStore.NoOrphansExactlyWhen | graph_kb_api/storage/blob_storage.py:180-183 | every run over a set of names keeps that if and only if no name in the set is a side file's name |
| BlobStore.CountIsArtifacts | graph_kb_api/storage/blob_storage.py:903-911 | the count of a session deletion is the number of its real artifacts |
| BlobStore.OthersUntouchedExactlyWhen | graph_kb_api/storage/blob_storage.py:902-908 | deleting a session touches no other session if and only if the id is a directory name of its own or leads out of the sessions' directory and not above it |
| BlobStore.NewlinesKeptExactlyWhen | graph_kb_api/storage/blob_storage.py:197 | reading as text changes a text if and only if it holds a carriage return |
| BlobStore.RetrieveGivesLatest | graph_kb_api/storage/blob_storage.py:156-242 | after any run, retrieving gives the content stored last, read as text, and the last non-empty metadata stored since the path was deleted |
| BlobFacts.RetrieveSays | graph_kb_api/storage/blob_storage.py:188-225 | a reader gets bytes as they are and text with its line endings read, the type of the name's ending, and the metadata beside the file |
| BlobFacts.NewlinesAre | graph_kb_api/storage/blob_storage.py:197 | each carriage return is read as a line feed and swallows a line feed behind it; every other character stays in its place |
| BlobFacts.StoreTouches | graph_kb_api/storage/blob_storage.py:156-186 | storing touches the file and, with metadata, its side file, and nothing else |
| BlobFacts.DeleteTouches | graph_kb_api/storage/blob_storage.py:227-242 | deleting an existing file takes it and its side file, and nothing else |
| BlobFacts.OwnDirectoryIs | graph_kb_api/storage/blob_storage.py:902 | a session id that is a name of its own leads to its own directory below the sessions' one |
| BlobFacts.ResolveOneMore | graph_kb_api/storage/blob_storage.py:902 | each further component of an id leads on: up, down, or nowhere |
| BlobFacts.MissesExactlyWhen | graph_kb_api/storage/blob_storage.py:250-252 | nothing is listed if and only if the id holds ".." as a component and a directory on its way does not exist |
| BlobFacts.SuffixIs | graph_kb_api/storage/blob_storage.py:257 | a name's suffix runs from its last dot, unless that starts or ends the name |
| PlanDocuments.PlanDocumentStore.Upload | graph_kb_api/routers/plan.py:296-412 | one uninterrupted upload: rejects, finds the duplicate, or adds blob, row and link; a blob that was stored stays when the transaction fails |
| PlanDocuments.PlanDocumentStore.Delete | graph_kb_api/routers/plan.py:533-589 | one uninterrupted deletion: rejects, or removes the link and with the last link the row and blob; the blob goes even if the transaction fails |
| PlanDocuments.QueryFailsExactlyWhen | graph_kb_api/routers/plan.py:351-362 | the duplicate query fails if and only if the session links two documents with the hash |
| PlanOutcomes.UploadSays | graph_kb_api/routers/plan.py:296-412 | for every file and fault: which result an upload gives, and the row, link and blob it adds, field by field |
| PlanOutcomes.DeleteSays | graph_kb_api/routers/plan.py:544-589 | for every fault: which result a deletion gives, and what is left of links, rows and blobs |
| PlanOutcomes.ExtensionIs | graph_kb_api/routers/plan.py:379 | a file name is a stem, a dot and the extension, which has no dot, or has neither |
| PlanOutcomes.RowsComeFromFiles | graph_kb_api/routers/plan.py:296-412 | in every run of overlapping requests each row and blob is that of a file some request began to add |
| PlanOutcomes.LinksAreRemovedByOne | graph_kb_api/routers/plan.py:572-589 | in every run at most one deletion of a link is between removing it and its end |
| PlanDocuments.UploadTwice | graph_kb_api/routers/plan.py:351-372 | uploading a file again returns the same document and changes nothing |
| PlanDocuments.DeleteUndoesUpload | graph_kb_api/routers/plan.py:376-589 | deleting what was uploaded restores rows, links and blobs |
| PlanRequests.RunConsistent | graph_kb_api/database/document_models.py:79-82 | in every run of overlapping uploads, attachments, deletions and associations, failures and rollbacks included, every link points to a live document and no two documents share a blob |
| PlanLaws.StepClearExactlyWhen | graph_kb_api/routers/plan.py:351-405 | no session has or is about to have two documents of one hash; a step breaks this if and only if an upload passes its query while another addition of the content is pending, or an attachment or association adds content that is there or pending |
| PlanLaws.StepKeptExactlyWhen | graph_kb_api/routers/plan.py:579-587 | every row has its blob unless its deletion is at its commit; a step breaks this if and only if such a deletion fails with the blob gone |
| PlanLaws.StepLinkedExactlyWhen | graph_kb_api/routers/plan.py:576-588 | every row has a link or is about to; a step breaks this if and only if a deletion that saw another link commits when there is none, or an attachment fails between row and link |
| PlanLaws.StepOwnedExactlyWhen | graph_kb_api/routers/plan.py:376-587 | every blob belongs to a row or an addition under way; a step breaks this if and only if an addition fails after its blob, or a row goes whose blob deletion failed |
| PlanRuns.HoldsExactlyWhen | graph_kb_api/routers/plan.py:296-589 | each of the four laws holds in every state of a run if and only if no step of the run breaks it |
| PlanRuns.UploadsDistinctExactlyWhen | graph_kb_api/routers/plan.py:351-405 | in runs of uploads and deletions no session ever has or is about to have two documents of one hash if and only if no two uploads of one content to one session overlap between query and end |
| PlanRuns.UploadsNeverFail | graph_kb_api/routers/plan.py:351-362 | then no duplicate query ever finds two rows |
| PlanRuns.ClearExactlyWhen | graph_kb_api/routers/plan.py:351-405 | in a reachable state without duplicates, every way of ending what is under way leaves none if and only if the law holds there |
| PlanRuns.SurvivesExactlyWhileLinked | graph_kb_api/routers/plan.py:576-589 | with nothing under way and the other three laws unbroken, a row survives if and only if some link remains, and the blobs are exactly those of the rows |
| PlanRuns.SerialRunsObey | graph_kb_api/routers/plan.py:296-589 | uploads and deletions one after the other, without failures, keep all four laws |
| PlanRuns.UploadIsItsSteps | graph_kb_api/routers/plan.py:351-412 | the uninterrupted upload is its steps in a row, with every way of failing |
| PlanRuns.DeleteIsItsSteps | graph_kb_api/routers/plan.py:561-589 | the uninterrupted deletion is its steps in a row, with every way of failing |
| Connections.ConnectionManager.Connect | graph_kb_api/websocket/manager.py:58-87 | stores the socket and starts a keepalive task without cancelling an earlier one; the lock is never held over an await, so nothing comes between its two sections |
| Connections.ConnectionManager.Disconnect | graph_kb_api/websocket/manager.py:89-126 | removes exactly the client's connection, keepalive, sessions and terminal workflows |
| Connections.ConnectionManager.GetNextEventId | graph_kb_api/websocket/manager.py:172-177 | advances a registered workflow's number; always 1 for others |
| Connections.ConnectionManager.SendEvent | graph_kb_api/websocket/manager.py:128-170 | issues a number only to a connected client, and disconnects it when the socket is gone |
| Connections.ConnectionManager.CreateWorkflow | graph_kb_api/websocket/manager.py:179-203 | registers a running workflow at number 0 |
| Connections.ConnectionManager.CompleteWorkflow | graph_kb_api/websocket/manager.py:209-216 | sets the status of a registered workflow |
| Connections.ConnectionManager.RegisterSession | graph_kb_api/websocket/manager.py:218-220 | maps the session to the client |
| Connections.ConnectionManager.UnregisterSession | graph_kb_api/websocket/manager.py:222-224 | removes the mapping |
| Connections.ConnectionManager.BroadcastToSession | graph_kb_api/websocket/manager.py:226-246 | sends to the session's client, or drops the event when it has none |
| Connections.IssuedCountUp | graph_kb_api/websocket/manager.py:147-177 | in every run the numbers issued for a registered workflow are 1, 2, 3, … |
| Connections.DeliveredOnce | graph_kb_api/websocket/manager.py:147-177 | no number is delivered twice, and none that was not issued |
| Connections.DeliveredIncrease | graph_kb_api/websocket/manager.py:147-177 | delivered numbers strictly increase if the workflow's sends are awaited one after the other |
| Connections.OverlapCanReorder | graph_kb_api/websocket/manager.py:147-165 | any two overlapping sends of a workflow can be delivered the wrong way round |
| Connections.InOrderThroughoutExactlyWhen | graph_kb_api/websocket/manager.py:147-165 | at every point of a run, and however the sends under way there end, the delivered numbers of a workflow increase if and only if no two of its sends overlap |
| Connections.StaysInOrderExactlyWhen | graph_kb_api/websocket/manager.py:147-165 | in a reachable state, however the sends under way end, delivery is in order if and only if it is so far, at most one is under way, and its number is above the delivered ones |
| Connections.RunningWorkflowSurvives | graph_kb_api/websocket/manager.py:89-126 | a workflow nobody ends keeps its client and goes on counting over any disconnects and reconnects |
| Connections.RemovedWorkflowRepeats | graph_kb_api/websocket/manager.py:172-177 | after removal a workflow's events repeat a number already used |
| Connections.FailingSendDropsNewerSocket | graph_kb_api/websocket/manager.py:164-166 | a run in which a send that failed on an old socket removes the new one |
| Connections.TakesAnotherExactlyWhen | graph_kb_api/websocket/manager.py:89-166 | some send under way can take down a connection it was not made on if and only if not all of them use their client's current connection |
| Connections.StepKeepsOwnExactlyWhen | graph_kb_api/websocket/manager.py:58-166 | a step keeps all sends on current connections if and only if it connects no client that has a send under way on another one |
| Connections.OwnThroughoutExactlyWhen | graph_kb_api/websocket/manager.py:58-166 | in every state of a run no send can take down another connection if and only if no client connects while it has a send under way on another one |
| Connections.ConnectKeepsKnownExactlyWhen | graph_kb_api/websocket/manager.py:86-97 | connecting leaves no stray keepalive task if and only if the client has none yet |
| Connections.NoStrayKeepalivesExactlyWhen | graph_kb_api/websocket/manager.py:86-97 | in every state of a run exactly one task runs per client in the table if and only if every reconnect follows a disconnect |
| ConnectionTables.DisconnectTakesOnlyItsOwn | graph_kb_api/websocket/manager.py:89-126 | a disconnect takes the client's connection, keepalive, sessions and ended workflows; everything else keeps its value |
| ConnectionTables.SendIsTwoSteps | graph_kb_api/websocket/manager.py:128-170 | one uninterrupted send is its two steps in a row |
| ConnectionTables.SessionMappedExactlyWhen | graph_kb_api/websocket/manager.py:121-224 | after any run a session is mapped to a client if and only if it was registered so and since then neither registered again nor unregistered, and the client not disconnected, by itself or by a failing send |
| ConnectionTables.ConnectedExactlyWhen | graph_kb_api/websocket/manager.py:58-104 | a client is connected by a socket and has a keepalive task if and only if it connected so and has neither connected again nor been disconnected since |
| ConnectionTables.WorkflowKeptExactlyWhen | graph_kb_api/websocket/manager.py:107-203 | a workflow is in the table under a client if and only if that client created it and has not been disconnected since while the workflow had ended |
| ConnectionTables.StatusIsLastSet | graph_kb_api/websocket/manager.py:179-216 | a workflow in the table has the status it was given last |

## Left out

- Progress.ThreadSafeBridge.Send: the exception branch other than a closed loop, which counts the event as dropped as well, is not separate from it.
- Progress.ConsumeProgressQueue: takes what arrives on the queue as a list; waiting and cancellation are in the step model only.
- BlobStore.LocalFilesystemBackend.Retrieve: leaves out size and creation time, the UTF-8 codec, and a side file that an artifact's own JSON overwrote.
- BlobStore.LocalFilesystemBackend.Store: leaves out names that are a directory and a file at once, and ".." components.
- BlobStore.LocalFilesystemBackend.DeleteSessionArtifacts: whether every directory exists on the way of an id that goes up is a parameter; symbolic links are not modelled.
- Connections.ConnectionManager.SendEvent: one send without interruption; interruption between number and socket is in the step model.
- PlanDocuments.PlanDocumentStore.Upload: the reads of session and file before the duplicate query are one step with the request's start.
- Checkpoints.FileIndexStore.Upsert: leaves out the time of indexing.
- FanInRuns.NeverHangsExactlyWhen: scripts have no suspension points, so the schedule may keep a collector waiting through a whole workflow; an exception in a collector is not modelled.
- Recorder.LLMRecorder.RecordCall: leaves out the messages and time of the entry, the file system's length limit, and failures of the disk.
- Repositories.RepositoryStore.InsertChild: one table of rows tagged with their kind stands for the five child tables.
- McpTools.MCPService.ConnectAll: a task advances by one of two awaits at a time; time limits of the transports are failures to connect.
- Sse.AnswerRoundTrip: a reader that rejects lone surrogates is not modelled; strings are UTF-16 units as in ECMAScript.
- A response timeout is a keepalive step that may come at any time; the race between a cancelled read and an arriving item is not modelled.
- The synthesis step after the fan-in, prompts, agents and intent routing: decided by a language model.
- Calls to language models, Neo4j, Chroma, Postgres, S3, Azure and tool servers: only their outcomes are modelled.
- JSON values other than objects with string members.
- PDF text extraction and tree-sitter parsing: their results are parameters.
- FailedChunks.FailedChunkStore.Save: leaves out column lengths and characters that the database refuses in text, as the other stores do.
- Timestamps, logging, schemas, settings, migrations, dependency injection.
- The single-repository streaming path, which repeats the inner fan-in with one repository.
- Embedding and indexing progress rows, user preferences, pagination, visualization and limit tables: single-row reads and writes or clamps.
- The synchronous wrapper's private event loop.
