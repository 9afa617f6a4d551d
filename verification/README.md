# The protocol kernel of jmaplib, modelled and proved

A Dafny model of the parts of jmaplib (a Python client for JMAP, RFC 8620) that decide
without doing I/O: how a batch of method calls is split, sent and answered; how cached query
results follow the server; how an event stream is parsed and resumed; how tokens are renewed
under concurrency; when a request may be sent again; how changes are followed; how patches,
pointers, URI templates and I-JSON documents are checked. Each module that models a source file
names it in its opening comment; `Servers` is what the results on batches assume of the other side. `dafny verify dfyconfig.toml` checks the whole project.

## How it is laid out

| module | what it models | main results |
|---|---|---|
| `Requests`, `Responses`, `Servers`, `SplitBatches`, `Batches` | planning, routing and executing a batch | greedy planning is complete and optimal; splitting preserves meaning, and exactly when |
| `Chunking` | oversized `/get` calls | merged chunks are an answer the single call could have had |
| `QueryViews`, `SpliceTies`, `ViewAgreement`, `ViewCuts` | sparse query results | one pass equals the algorithm of section 5.6 of RFC 8620, and exactly when; views keep agreeing with the server's list, and exactly when |
| `Sse`, `SseReference`, `Resume`, `EventTexts`, `Handovers` | the event stream and its cursor | any chunking equals the WHATWG interpretation of the whole; what a consumer is handed over reconnects, exactly |
| `TokenRefresh` | the refresh lock and its generation counter | one refresh at a time, one success a generation, no self-deadlock |
| `Retries` | the retry loop | no change is applied twice; bounds on attempts and waiting; when waits are the documented ones, exactly |
| `ChangeStreams` | following `/changes` | no gap over interrupted runs; termination by the cycle guard |
| `Patches`, `PatchSweeps`, `Pointers` | patches and JSON pointers | the incremental index equals the full sweep, errors included; round trips |
| `WebSockets` | requests over one socket | answers reach their sender; changes are neither lost nor reordered |
| `UriTemplates`, `IJson` | URI templates, I-JSON checks | printing inverts parsing; which URLs determine their values; the worklist equals the recursion |
| `Wrappers`, `Sequences`, `Decimals`, `Json`, `Invocations` | shared types and facts | |

Code that updates objects or loops over variables is modelled by classes and methods proved
against specification functions; concurrency and crashes are modelled by step relations whose
runs may interleave or stop anywhere.

## What is assumed of the other side

- The server of a batch is any deterministic function of its state, the method, the resolved
  arguments and the creation ids known so far. It runs the calls of a request in order and
  resolves back-references within one request (section 3.7 of RFC 8620).
- Splitting preserves meaning if the server reports assigned creation ids in every response, or
  the batch starts with some. Section 3.4 of RFC 8620 asks for a report only when the request
  carried ids, and `Request.to_wire` leaves out an empty map; `SplitBatches` proves this
  condition exact.
- A 429, a 503 and a limit problem mean that nothing in the request ran. Any other request that
  was not answered may run, at most once for each time it was sent, and possibly much later.
  A record type never returns to a state it has left. Every mutating method honours `ifInState`,
  and every change that is applied moves the state of its scope; methods that change something
  without a state of their own, such as `Blob/upload` and `MDN/send`, are outside this.
- A push server gives changes distinct ids that can be sent back as a header, and on a reconnect replays
  everything after the id it is sent; pings and bare ids leave the last change's id in force.
- A page of changes lists every change between the state it was asked from and the state it leads
  to, and a server answers with finitely many states.
- The refresh callable returns a token it has not returned before.

## Where code and documentation part

- `RetryPolicy.backoff` documents the delay before an attempt, attempt 2 being the first retry;
  `_post` passes the number of the attempt that failed, so each wait is one step down the curve:
  with the default policy 0.5 seconds where 1.0 is documented (`Retries.DefaultWaitIsShorter`).
  The wait before an attempt is the documented one if and only if the server named it with a
  `Retry-After`, or the multiplier is 1, the initial backoff is 0 or the ceiling is reached there
  already (`Retries.WaitIsDocumentedExactly`). The model follows the code.
- `splice` says it follows the worked example of section 5.6 of RFC 8620 exactly. It does so if and
  only if, taking the added items from the lowest index up, no item names a position where an
  earlier item of another id has landed (`SpliceTies.FollowsTheRfcExactly`); for deltas that add no
  id twice, if and only if no two added items share an index. Items that do come out in delta
  order, where inserting one by one would reverse them (`QueryViews.DuplicateIndicesDiffer` is the
  smallest case).
- `listen` says a drop costs latency rather than data. That holds of every push a consumer can be
  handed (`Handovers.ReadableIsHandedOver`). A push whose payload does not parse is the exception:
  its id is tracked before it is parsed, so a consumer that catches the error and listens again
  resumes past it (`Handovers.MalformedIsPassed`); `Handovers.MalformedMovesTheCursor` gives the
  text of such a push.
- A list of ids that is over the limit only because of repeats is sent as it was given, repeats
  included; no other `/get` goes out over the limit (`Batches.Batch.Add`).

## Model

| member | source | states |
|---|---|---|
| `Requests.ValidateReferences` | src/jmap/core/request.py:92-115 | passes exactly when every back-reference names an earlier call whose latest namesake has the expected method name; otherwise names the first bad reference in call and argument order |
| `Requests.CutPoints` | src/jmap/core/request.py:118-135 | the single backward pass marks a position legal exactly when no call from there on refers back across it |
| `Requests.LegalCutKeepsReferences` | src/jmap/core/request.py:118-135 | with unique call ids a cut is legal if and only if every reference and the call it names lie on one side of it |
| `Requests.LatestEnd` | src/jmap/core/request.py:167-169 | the farthest legal end within the limit, or the start when there is none |
| `Requests.StuckRun` | src/jmap/core/request.py:170-176 | the error names a run of calls between two neighbouring legal cuts that is longer than the limit |
| `Requests.CutRequests` | src/jmap/core/request.py:162-179 | greedy requests that are a legal split, or a proof that no legal split exists |
| `Requests.GreedyIsShortest` | src/jmap/core/request.py:138-179 | no legal split of the same calls has fewer requests than the greedy one |
| `Requests.PlanRequests` | src/jmap/core/request.py:138-179 | every call once and in order, at most `limit` calls a request, no reference separated from its target, only the first request carrying creation ids; fails exactly when no such split exists; otherwise uses the fewest requests possible; the error cases in the order they are raised |
| `Responses.Handle.Fulfil` | src/jmap/core/invocation.py:306-314 | the handle holds the result and the extra responses and is resolved; nothing else about it changes |
| `Responses.Handle.Fail` | src/jmap/core/invocation.py:316-322 | the handle holds the error and is resolved; a result it held stays |
| `Responses.PartitionFindsAnswer` | src/jmap/core/response.py:162-178 | the first response of the expected name or `error` is the answer wherever it stands among implicit responses, and no response is lost |
| `Responses.GroupByCall` | src/jmap/core/response.py:130-132 | the responses of each call id, all of them, in arrival order |
| `Responses.Dispatch` | src/jmap/core/response.py:123-159 | each handle becomes what the responses under its id say and no other handle changes |
| `Servers.RunConcat` | src/jmap/core/request.py:138-179 | a server that runs calls in order gives for a list of calls what it gives for its two halves in turn |
| `Servers.RunDependsOnRefs` | src/jmap/core/request.py:118-135 | calls run alike after two histories that look the same to all their references |
| `SplitBatches.RunAcrossCut` | src/jmap/core/request.py:138-179 | the unsplit run, told as a run up to a legal cut followed by one fresh request |
| `SplitBatches.SplitRunPrefix` | src/jmap/batch.py:379-437 | after the first k requests of any split the server stands where the unsplit run stands after those calls, exactly those calls are answered, each with its unsplit answer |
| `SplitBatches.SplitPreservesMeaning` | src/jmap/batch.py:379-437 | a split batch ends in the same server state, creation ids and handle states as one unsplit request, and every handle is resolved |
| `SplitBatches.UnreportedIdsAreLost` | src/jmap/core/request.py:74-85 | a concrete batch and server for which splitting changes an answer, because an empty map of creation ids is not sent and the server then reports none |
| `SplitBatches.SplitsSafelyExactlyWhenReported` | src/jmap/batch.py:379-437 | splitting changes nothing for every server and batch if and only if the server always reports creation ids or the batch starts with some |
| `Batches.Batch.constructor` | src/jmap/batch.py:91-118 | an empty batch carrying the given creation ids and limits |
| `Batches.Batch.Enqueue` | src/jmap/batch.py:221-223 | the new call gets the next id of the batch, so no two calls of a batch share one |
| `Batches.Batch.Add` | src/jmap/batch.py:150-251 | an oversized literal `/get` becomes chunk calls whose ids concatenate to the deduplicated list, all else one call; earlier handles are kept; a queued `/get` names more ids than the limit exactly when dropping repeats makes the given list fit |
| `Batches.Batch.Absorb` | src/jmap/batch.py:417-437 | handles take the answers under their ids, a call in flight that nobody answered fails with `missingResponse`, reported creation ids are merged, nothing is in flight any more |
| `Batches.Batch.Pending` | src/jmap/batch.py:439-441 | the unresolved handles in queueing order |
| `Batches.BatchIdsUnique` | src/jmap/batch.py:221-223 | a batch's call ids are pairwise different |
| `Batches.SendRequest` | src/jmap/batch.py:379-437 | one request sent and absorbed is one round trip of the specification |
| `Batches.SendAll` | src/jmap/batch.py:379-393 | the requests that come back are round trips; the one whose posting raises may have run on the server, changes nothing the client holds, and leaves its ids in flight; after the last, nothing is in flight |
| `Batches.Execute` | src/jmap/client.py:300-306 | posting planned requests in turn, stopped by a raise after any of them, leaves exactly the state of that many round trips and of the one that raised, run or not; a batch that cannot be planned changes nothing |
| `Batches.ExecuteAll` | src/jmap/client.py:300-306 | an execution that runs to its end leaves every handle resolved with the answer of one unsplit request |
| `Chunking.ChunkIds` | src/jmap/chunking.py:168-175 | the loop over slice starts gives the consecutive slices |
| `Chunking.ChunksCover` | src/jmap/chunking.py:168-175 | chunks concatenate to the list, none is empty or over the limit, and all but the last are full |
| `Chunking.SplitIfOversized` | src/jmap/batch.py:225-251 | left whole exactly when the deduplicated list fits; otherwise at least two chunks of at most the limit whose concatenation is the deduplicated list |
| `Chunking.MergeGetResults` | src/jmap/chunking.py:146-165 | fails exactly when two chunks report different states, naming exactly the states seen; otherwise the first result with all items and all missing ids in chunk order |
| `Chunking.MergeIsOneAnswer` | src/jmap/chunking.py:146-165 | when chunks report states, the merge is torn exactly when two chunks saw different states, and otherwise is an answer the unsplit call could have had at that state, for a server free to list records in any order |
| `Pointers.UnescapeIsDecode` | src/jmap/core/pointer.py:38-44 | the two replacement passes equal one left-to-right decoder on every string |
| `Pointers.EscapeIsEncode` | src/jmap/core/pointer.py:47-49 | the two replacement passes equal one character-by-character encoder |
| `Pointers.UnescapeEscape` | src/jmap/core/pointer.py:38-49 | decoding undoes escaping on every string |
| `Pointers.EscapeUnescape` | src/jmap/core/pointer.py:38-49 | escaping undoes decoding if and only if every tilde starts an escape |
| `Pointers.PointerRoundTrip` | src/jmap/core/pointer.py:52-67 | splitting a built pointer gives back its tokens, whatever they are |
| `Pointers.BuildPointerIsKey` | src/jmap/core/pointer.py:146-152 | a built pointer is a slash and the patch key of its tokens; the wildcard never needs escaping |
| `Pointers.PatchKeyRoundTrip` | src/jmap/core/patch.py:191-198 | the slashless form round-trips if and only if there are no tokens or the first is not empty |
| `Pointers.ResolveInStages` | src/jmap/core/pointer.py:91-125 | a path without wildcard may be followed in two stages, errors included |
| `Pointers.ResolveEachAppend` | src/jmap/core/pointer.py:96-113 | a wildcard over a list is the wildcard over its front plus the flattened result of its last element |
| `Pointers.ResolveByLoop` | src/jmap/core/pointer.py:91-125 | the loop that reassigns the value and recurs only below a wildcard computes the recursive meaning |
| `QueryViews.Merge` | src/jmap/sync/query.py:213-225 | the loop over sorted additions is the merge pass |
| `QueryViews.Splice` | src/jmap/sync/query.py:185-233 | fails with the first value out of bounds in checking order, else the merge cut or padded to the total |
| `QueryViews.SortByIndex` | src/jmap/sync/query.py:209-212 | a reordering of the additions from the lowest index up |
| `QueryViews.MergeIsInsertAll` | src/jmap/sync/query.py:213-225 | for ascending indices the single pass equals inserting one by one with null padding |
| `QueryViews.AscendingUnique` | src/jmap/sync/query.py:209-212 | with distinct indices there is only one lowest-first order |
| `QueryViews.SpliceFollowsTheRfc` | src/jmap/sync/query.py:185-233 | for every list and every delta with distinct indices: remove, then insert each item one by one from the lowest index |
| `QueryViews.DuplicateIndicesDiffer` | src/jmap/sync/query.py:208-212 | the smallest witness: two items at index 0 of an empty list stay in delta order, where one-by-one insertion reverses them |
| `SpliceTies.SwapDiffers` | src/jmap/sync/query.py:185-233 | inserting one by one, the two lowest-first orders of a tie always give two different lists |
| `SpliceTies.FollowsTheRfcExactly` | src/jmap/sync/query.py:185-233 | for every list and every delta within bounds: splicing is the algorithm of the RFC, in every lowest-first order, if and only if, taking the added items from the lowest index up, none names a position where an earlier item of another id has landed |
| `SpliceTies.FollowsTheRfcWithoutRepeats` | src/jmap/sync/query.py:185-233 | for deltas that add no id twice this says that no two added items share an index |
| `QueryViews.QueryView.Apply` | src/jmap/sync/query.py:296-314 | the view after a delta, or the error raised and the view untouched |
| `QueryViews.QueryView.Reset` | src/jmap/sync/query.py:316-325 | the view re-seeded from a response, or the error raised and the view untouched |
| `QueryViews.QueryView.Length` | src/jmap/sync/query.py:327-329 | the larger of the number of stored ids and the total |
| `ViewAgreement.ImpliedTailLosesNothing` | src/jmap/sync/query.py:296-314 | for any number of trailing nulls on the old list, the view's result padded to the new total equals splicing the padded list with that total |
| `ViewAgreement.SpliceAgrees` | src/jmap/sync/query.py:185-233 | a view that agrees with the server's old list at every known slot agrees with the new list after any delta that describes the change, unless a removed id hides in a null slot before a known survivor |
| `ViewAgreement.ApplyAgrees` | src/jmap/sync/query.py:296-314 | the same for an applied delta, total cut included |
| `ViewAgreement.RunAgrees` | src/jmap/sync/query.py:296-314 | the same for any chain of applied deltas |
| `ViewAgreement.QueryAgrees` | src/jmap/sync/query.py:257-275 | a fresh view agrees with the list it was a window of |
| `ViewAgreement.AgreementExactly` | src/jmap/sync/query.py:185-233 | before the cut, agreement survives if and only if no removed id hides in a null slot before a known survivor |
| `ViewCuts.PlacedExactly` | src/jmap/sync/query.py:213-225 | the merge puts a known survivor where the new list has it if and only if no removed id hides before it |
| `ViewCuts.ApplyAgreesExactly` | src/jmap/sync/query.py:296-314 | after `apply`, cut included, the view agrees with the new list if and only if every known survivor with a removed id hidden before it is placed past the cut |
| `Sse.SseParser.ConsumeLine` | src/jmap/push/sse.py:181-231 | one line changes the fields and delivers an event as the line semantics says |
| `Sse.SseParser.Scan` | src/jmap/push/sse.py:155-174 | the scanning loop consumes exactly the complete lines, keeps the rest, and remembers a CR at the end |
| `Sse.SseParser.Admit` | src/jmap/push/sse.py:138-144 | drops the LF of a CRLF split over two chunks, and one mark at the start of the stream |
| `Sse.SseParser.Feed` | src/jmap/push/sse.py:129-174 | events and state after a chunk depend only on the whole text so far; overflow exactly when held text and chunk exceed the limit, and then no cursor moves |
| `Sse.LinesConcat` | src/jmap/push/sse.py:138-174 | the lines of a text are those of a first chunk followed by those of the carried rest and the second, a split CRLF ending one line |
| `Sse.ParsedStep` | src/jmap/push/sse.py:129-174 | parsing may stop after any prefix and go on from the state held there |
| `SseReference.ConsumeRefines` | src/jmap/push/sse.py:181-231 | one line of the parser is one line of the standard's interpretation, its list of data values standing for the standard's buffer |
| `SseReference.ParserMatchesStandard` | src/jmap/push/sse.py:101-231 | on every whole text the parser's events and state are those of the WHATWG interpretation |
| `SseReference.HeldFitsText` | src/jmap/push/sse.py:146-148 | buffered text and data never exceed the text received |
| `SseReference.WholeFitsSoChunkFits` | src/jmap/push/sse.py:146-148 | a text that fits when fed whole does not overflow however it is chunked |
| `SseReference.FeedAll` | src/jmap/push/sse.py:129-174 | any chunking gives the events, cursor and state the standard gives the whole text |
| `Resume.EventStream.Track` | src/jmap/push/eventsource.py:225-228 | the cursor adopts an id that can be sent as a header and keeps the old one otherwise |
| `Resume.EventStream.HandOn` | src/jmap/push/eventsource.py:235-246 | wherever the consumer stops, the cursor is the id in force at a moment whose events have all been taken, and what was handed over is the reading of those events; a payload that does not parse ends it with that event's id tracked |
| `Resume.EventStream.Feed` | src/jmap/push/eventsource.py:235-246 | the same for a chunk, the closing bare id included; half-received events do not move the cursor |
| `Resume.ReachEvent` | src/jmap/push/eventsource.py:213-228 | taking one more event and tracking its id keeps the cursor justified |
| `Resume.PushListener.Absorb` | src/jmap/push/listener.py:154-158 | the cursor and the retry hint of a finished connection carry over |
| `Resume.PushListener.NoteEnd` | src/jmap/push/listener.py:168-180 | failures reset exactly when the connection delivered or lasted |
| `Resume.PushListener.Connect` | src/jmap/push/listener.py:148-158 | one connection cut after any chunk, abandoned, or raising leaves a cursor justified by what was taken; what was handed over is the reading of what was taken; one that raises on a payload has tracked that event |
| `Resume.DelayBounds` | src/jmap/push/listener.py:182-198 | between the floor and the ceiling, never shortened by another failure, and no shorter than a request to wait that is within the ceiling |
| `Resume.ReplayDelivers` | src/jmap/push/eventsource.py:213-223 | a replay carries each later entry, once and in order |
| `Resume.NothingIsSkipped` | src/jmap/push/listener.py:148-158 | over any sequence of drops and reconnects the entries the streams took run without a gap from the start to some point, none other was taken, and the cursor is never past that point |
| `Resume.CaughtUp` | src/jmap/push/listener.py:148-158 | once one connection has brought everything, every later entry has been taken |
| `Resume.ConnectionIsSession` | src/jmap/push/eventsource.py:186-246 | a connection of the listener cut at any character is such a session, its events being a prefix of what the server meant |
| `Handovers.Settle` | src/jmap/push/listener.py:381-399 | after any connection but a refused one the failures in a row are counted as delivery, a lasting clean end, loss or a `Retry-After` demand, and the wait is within its bounds and no shorter than a demand within the ceiling |
| `Handovers.Listen` | src/jmap/push/listener.py:358-399 | the loop over any number of dials, each with the cursor the one before left: streams cut anywhere, closed, lost, put off or refused make just such a run of connections, hand over what it took, and wait between the floor and the ceiling |
| `EventTexts.EventTextMoment` | src/jmap/push/sse.py:129-231 | the text of an event with values that hold no line break and start with no blank parses to that one event, under its id |
| `Handovers.ReadableIsHandedOver` | src/jmap/push/listener.py:327-399 | over any run of connections, each cut, abandoned or failed anywhere: of the entries after the start, up to a point the cursor never passes, exactly those whose payload is of a known type and parses are handed to the consumer, and nothing else but pings |
| `Handovers.HandedApart` | src/jmap/push/eventsource.py:235-246 | no payload handed over stands for two entries, even when they read alike |
| `Handovers.MalformedIsPassed` | src/jmap/push/listener.py:327-356 | a connection that ends on a payload that does not parse leaves the cursor at that entry, and no connection ever hands it over |
| `Handovers.MalformedMovesTheCursor` | src/jmap/push/eventsource.py:235-246 | and this happens wherever the next entry does not parse and can be written as an event: its text, sent alone, is a connection of such a run, moves the cursor to the entry and hands nothing over |
| `TokenRefresh.RunInv` | src/jmap/auth/credentials.py:276-338 | the invariant of every interleaving: who holds the lock, which token is spent, which generations succeeded |
| `TokenRefresh.OneRefreshAtATime` | src/jmap/auth/credentials.py:306-328 | no two threads are ever inside a refresh |
| `TokenRefresh.SpentTokenNeverPresented` | src/jmap/auth/credentials.py:291-328 | a token whose refresh succeeded is never given to `refresh` again, even when saving failed |
| `TokenRefresh.OneSuccessPerGeneration` | src/jmap/auth/credentials.py:306-328 | requests that failed with one generation cause at most one successful refresh, and exactly one once any of them is told to go on |
| `TokenRefresh.OfferedBeforeAdopted` | src/jmap/auth/credentials.py:291-304 | every token in use but the first was handed to the store before it was adopted |
| `TokenRefresh.NoThreadWaitsOnItself` | src/jmap/auth/credentials.py:306-328 | no thread waits on the lock it holds, not even through a request sent from inside `refresh` |
| `TokenRefresh.LockHolderCanStep` | src/jmap/auth/credentials.py:306-328 | whoever holds the lock always has a next step |
| `Retries.FirstWait` | src/jmap/client.py:372-394 | the first wait is the initial backoff itself, within the ceiling, whatever the first reply, unless that names a `Retry-After` |
| `Retries.BackoffStandsExactly` | src/jmap/core/retry.py:135-145 | counting one attempt more leaves the backoff as it is if and only if the multiplier is 1, the initial backoff is 0 or the ceiling is reached already |
| `Retries.WaitIsDocumentedExactly` | src/jmap/client.py:362-423 | before every attempt a run makes after its first, what is waited is never longer than the documented delay before that attempt, and equals it if and only if the server named the delay or the backoff cannot grow there |
| `Retries.DefaultWaitIsShorter` | src/jmap/core/retry.py:123-145 | with the default policy the first retry waits 0.5 seconds where 1.0 is documented |
| `Retries.BackoffGrows` | src/jmap/core/retry.py:135-145 | the backoff curve is never negative and never shrinks |
| `Retries.PauseBounds` | src/jmap/core/retry.py:147-159 | a pause is within the policy's longest wait and never shorter than the server asked |
| `Retries.Post` | src/jmap/client.py:362-423 | the loop makes exactly the attempts the policy allows, waits exactly between them and ends with the last reply's outcome |
| `Retries.AttemptsBound` | src/jmap/core/retry.py:162-183 | attempts never exceed the policy's maximum |
| `Retries.TotalWaitBound` | src/jmap/core/retry.py:135-159 | total waiting is at most (`max_attempts` - 1) times the larger of `max_backoff` and `max_retry_after` |
| `Retries.OnlyLastAttemptRuns` | src/jmap/core/retry.py:162-183 | with an unguarded change aboard every attempt but the last provably ran nothing |
| `Retries.GuardFailsAfterwards` | src/jmap/batch.py:526-535 | where states never recur, a change held to a literal state cannot apply twice |
| `Retries.BatchQuestions` | src/jmap/batch.py:489-512 | a batch is mutating exactly when it asks for a change, and its mutations are guarded exactly when each of its changes is |
| `Retries.BatchAppliedAtMostOnce` | src/jmap/client.py:362-423 | each mutating call of a batch is applied at most once, with the answers to those two questions as the loop takes them |
| `Retries.AtMostOnce` | src/jmap/batch.py:489-535 | in every run against a server that may apply what it does not answer, even late, each change is applied at most once |
| `Retries.ResolvedStateIsNoGuard` | src/jmap/batch.py:526-535 | were a back-reference taken for a guard, a timeout could apply its change twice |
| `ChangeStreams.ChangeSet.Absorb` | src/jmap/sync/changes.py:116-126 | each list stays the first-seen-order deduplication of all pages, and the state moves only when the page names one |
| `ChangeStreams.AbsorbIds` | src/jmap/sync/changes.py:116-126 | the loop with its seen set computes that deduplication |
| `ChangeStreams.Collect` | src/jmap/sync/changes.py:213-237 | a complete walk collected, or the reason it stopped, within as many fetches as the server has states |
| `ChangeStreams.CatchUp` | src/jmap/sync/changes.py:213-237 | the stored cursor moves once to where the walk ended, or not at all on any error |
| `ChangeStreams.WalkIsShort` | src/jmap/sync/changes.py:245-257 | a walk the cycle guard lets through has fetched fewer pages than there are states |
| `ChangeStreams.WalkCovers` | src/jmap/sync/changes.py:213-237 | what a complete walk collects misses no change between its start and the state it reached |
| `ChangeStreams.PageRun.Advance` | src/jmap/sync/changes.py:245-257 | the cursor moves past the page the consumer came back from, unless the server leads back to a visited state |
| `ChangeStreams.PageRun.Fetch` | src/jmap/sync/changes.py:259-271 | a fetch hands its page over without moving the cursor, or ends the run |
| `ChangeStreams.PageRun.NextPage` | src/jmap/sync/changes.py:194-211 | one turn of the generator is these two steps, never more fetches than states, and only this cursor changes in the store |
| `ChangeStreams.NoGap` | src/jmap/sync/changes.py:194-211 | over any sequence of runs interrupted anywhere, every change between the seed and the stored cursor has been handed to the consumer |
| `Patches.CheckOverlap` | src/jmap/core/patch.py:150-170 | the full sweep passes exactly when no pointer is a prefix of another or equal to it, and otherwise reports the first clash in insertion order, outermost key first |
| `Patches.PatchBuilder.CheckAddition` | src/jmap/core/patch.py:279-298 | three lookups pass exactly when the held keys plus the new one are prefix-free, and otherwise report the very pair the full sweep in insertion order would |
| `PatchSweeps.SweepOfAddition` | src/jmap/core/patch.py:279-298 | on a prefix-free patch and one more key, the sweep's error is the owner of the pointer, else the first key beneath it, else the one key above it |
| `Patches.PatchBuilder.FileAncestors` | src/jmap/core/patch.py:265-277 | every proper prefix of every held pointer is filed under the first key beneath it, and nothing else is |
| `Patches.PatchBuilder.Add` | src/jmap/core/patch.py:265-298 | accepts exactly when the key decodes and the sweep over all keys would pass; a refusal changes nothing |
| `Patches.PatchBuilder.Build` | src/jmap/core/patch.py:252-263 | the re-check never objects: the finished patch is the edits held |
| `Patches.AcceptanceIgnoresOrder` | src/jmap/core/patch.py:265-298 | a sequence of keys is accepted if and only if its set of keys is well-formed, so order does not matter |
| `Patches.EditsCommute` | src/jmap/core/patch.py:150-170 | two edits whose pointers are apart commute on every object, failures included |
| `Patches.OrderOfEditsIsFree` | src/jmap/core/patch.py:150-170 | edits pairwise apart give one result in every order |
| `Patches.HeldPatchHasOneMeaning` | src/jmap/core/patch.py:201-306 | a patch the builder holds means one thing, in whatever order its keys are applied |
| `Patches.JmapKeysAreNotEmpty` | src/jmap/core/patch.py:116-147 | a key accepted in the JMAP dialect never names the whole object |
| `WebSockets.WebSocketProtocol.NextRequestId` | src/jmap/push/websocket.py:135-141 | the first later counter value whose id is not in flight; the search ends |
| `WebSockets.WebSocketProtocol.EncodeRequest` | src/jmap/push/websocket.py:143-159 | refused exactly when the caller names an id in flight; otherwise exactly one id joins those outstanding |
| `WebSockets.WebSocketProtocol.Settle` | src/jmap/push/websocket.py:219-222 | the answered id is no longer outstanding |
| `WebSockets.RunInv` | src/jmap/push/websocket_aio.py:165-278 | the invariant of every interleaving of sends, answers, timeouts and loss |
| `WebSockets.IdsNeverRepeat` | src/jmap/push/websocket.py:135-141 | no id is given out twice by a client, however often it loses its socket and opens another |
| `WebSockets.AnswersReachTheirSender` | src/jmap/push/websocket_aio.py:262-278 | an answer naming an id is only ever taken by the exchange that sent it |
| `WebSockets.LateAnswersAreDropped` | src/jmap/push/websocket_aio.py:262-278 | an answer nobody waits for changes nothing but the outstanding ids |
| `WebSockets.LossWakesEveryone` | src/jmap/push/websocket_aio.py:217-239 | after the socket is lost every waiting task can go on |
| `WebSockets.WebSocketClient.ReadPastChanges` | src/jmap/push/websocket_client.py:224-228 | the changes before the first other message are queued, in order |
| `WebSockets.WebSocketClient.Exchange` | src/jmap/push/websocket_client.py:221-237 | a request that cannot be sent closes the socket; otherwise ends on the first message that is not a change, as an answer only if it names this request or none; changes handed out plus queued stay exactly those received |
| `WebSockets.WebSocketClient.NextChange` | src/jmap/push/websocket_client.py:253-269 | queued changes come first; handed out plus queued stay exactly those received, in order |
| `UriTemplates.Parse` | src/jmap/core/uritemplate.py:128-146 | the scanning loop computes the recursive parse, its error the first one met |
| `UriTemplates.ParsedExactly` | src/jmap/core/uritemplate.py:106-146 | parsing succeeds with given parts if and only if they are canonical and print to the template |
| `UriTemplates.UnquoteQuote` | src/jmap/core/uritemplate.py:187-191 | percent-decoding undoes encoding, and an encoded value holds only unreserved characters and `%` |
| `UriTemplates.Expand` | src/jmap/core/uritemplate.py:166-194 | the loop computes the expansion, or the first missing variable |
| `UriTemplates.TemplateDeterminesValues` | src/jmap/core/uritemplate.py:166-194 | when between any two variables there is a literal with a character no encoded value contains, two value maps with one URL agree on every variable |
| `UriTemplates.DelimitedIsSeparated` | src/jmap/core/uritemplate.py:166-194 | a template whose variables are each followed by the end or by such a character is one of these |
| `UriTemplates.DeterminesExactly` | src/jmap/core/uritemplate.py:166-194 | for a template that names each variable once and has no `%` in a literal, the URL determines the values if and only if between any two variables there is a literal with a character outside the unreserved set |
| `UriTemplates.AdjacentVariablesAmbiguous` | src/jmap/core/uritemplate.py:166-194 | an instance: the URL of two different variables side by side does not determine their values |
| `IJson.CheckFindsAll` | src/jmap/core/ijson.py:176-211 | the recursive walk raises nothing on a tree of known types exactly when no integer, string or key in it is at fault |
| `IJson.CheckLocates` | src/jmap/core/ijson.py:176-211 | a violation it raises is really there, at the path it names |
| `IJson.PushMembers` | src/jmap/core/ijson.py:259-263 | stops only at a bad key; otherwise the stack owes exactly the member values, one node fewer than before |
| `IJson.Scan` | src/jmap/core/ijson.py:225-270 | terminates, and is true exactly when the recursive walk raises nothing and every type is known |
| `IJson.Validate` | src/jmap/core/ijson.py:273-276 | scanning first changes no outcome of the walk |
| `IJson.AsMapSize` | src/jmap/core/ijson.py:282-290 | comparing lengths tells exactly whether a member name is repeated |
| `IJson.RejectDuplicates` | src/jmap/core/ijson.py:282-297 | the dictionary exactly when no name is repeated, else the first name met twice; the last line is never reached |
| `IJson.SafeIntExactly` | src/jmap/core/ijson.py:306-323 | an integer literal of any length is accepted, with its value, exactly when the value is within 2^53 - 1 of zero; a refusal reports an unsafe value of the same sign |

## Left out

- Pagination, downloads and uploads, sessions and discovery, typed models and namespaces: I/O or declarations with only easy claims.
- The asynchronous twins of the client and the listener: the same loops with awaits.
- The size gate on `Foo/set` before planning, the gates of `Batch.add` (account, read-only, property and sort checks, with the walk of `_condition_names` over a filter) and the choice of capabilities in `using`: branches over capability tables. Calls in the model have passed them.
- `ChunkedHandle`'s properties and `to_wire_value`: they only read or refuse.
- Texts of errors, and the Python representation of an argument in them; the model keeps the kind of error and the values it names.
- Byte decoding: the event-stream parser is given characters, the byte-order mark included as U+FEFF; URI values are given as the octets of their text.
- Full JSON parsing: decoded trees, pairs of an object and integer literals are the inputs of `IJson`. Objects, arrays and lone surrogates are covered; the nesting limit of the interpreter is not.
- Clocks and sleeping: waits are numbers, in seconds as reals for retries and in milliseconds for reconnects; overflow of a float backoff is not modelled.
- `Retries.Post` takes the replies of all attempts as a function; authentication flows inside one attempt belong to `TokenRefresh`.
- TokenRefresh.OneSuccessPerGeneration: the decision that a token is about to expire is free to go either way at any time, so the lead time ahead of expiry is not modelled.
- TokenRefresh.OfferedBeforeAdopted: a store is always present; without one there is nothing to hand the token to and it is adopted at once.
- Resume.EventStream.Feed: the whole chunk is parsed before the consumer can stop, where the source parses as the consumer asks for more; so the retry hint kept from a chunk that was abandoned may be one the source has not read yet.
- Handovers.Listen: the loop has no end in the source; the model follows it for any number of dials.
- A generator that is suspended rather than stopped: a run of pages or of events is either resumed or ended.
- Batches.Batch.Add: the call it is given has passed the gates and carries its `accountId`; the `ChunkedHandle` that stands for several chunk handles is not built.
- UriTemplates.DeterminesExactly: templates that repeat a variable or have a `%` in a literal are covered by the sufficient half only, `UriTemplates.TemplateDeterminesValues`.
- Merging a patch into a builder key by key (`merge`) and the keyword and mailbox helpers: loops over `Add`.
- Applying a patch that reaches into an array: section 5.3 of RFC 8620 forbids it, so such an edit fails in the model. Edits are shown to commute for non-empty pointers, which JMAP-dialect keys always have.
- The stable key of a query's filter and sort, `known_ids` and `up_to_id`: pure reads of the view.
- Web Push encryption, PKCE and the OAuth message flows: outside the protocol kernel.
