# Chat, storage and voice: a verified model

This project models the parts of the system whose behaviour spans several functions or a
whole run, and proves what they promise. Each module follows one component; methods that
change state are proved against functions on values, and the main theorems are about
those functions.

| area | modules |
|---|---|
| The gateway's session protocol: replay buffer, connection loop, RESUME and IDENTIFY, the client's session state | `Prelude`, `Wire`, `ReplayBuffer`, `SessionStore`, `Gateway`, `ChatClient`, `ResumeProtocol`, `ResumeSafety`, `ResumeOverlap`, `ResumeLaws` |
| Streaming upload into S3, and object URLs | `MultipartUpload`, `ObjectUrls` |
| Message ids, weekly partitions, history pages, paging and catch-up | `Snowflake`, `ChannelReads`, `ChannelExamples`, `HistoryPaging`, `CatchUp`, `ChannelRows` |
| Permission cache: keys, globs, time, the SCAN/DEL sweep, the check behind it | `AclKeys`, `AclCache`, `AclConsumer`, `PermissionReads` |
| Rate limiting, idempotent sends, content squeezing | `RateLimit`, `Idempotency`, `SendRace`, `Sanitize` |
| Client state: optimistic messages, unread counters, voice activity | `MessageList`, `Unread`, `VoiceActivity` |

`dafny verify dfyconfig.toml` checks everything.

## Hypotheses and findings

Session protocol. The guarantee is exactly-once, in-order delivery of the numbered events
of the client's current session over every run in which no RESUME starts a second loop on
a session whose earlier loop is still running. Nothing in the gateway enforces that, so it
is stated as a hypothesis (`ExclusiveRun`), and `ResumeIsSafeIffExclusive` shows that it is
exactly what the guarantee rests on: in every reachable state, answering a RESUME is safe
for all continuations if and only if no other loop is attached to the session. With the
hypothesis, reading the replay and the last number under two lock acquisitions
(`services/chat/src/gateway.rs:147-159`) is the same as reading them at once, and the
model does so in one step. The guarantee covers numbered events only: the subscription task
is aborted on disconnect (`services/chat/src/gateway.rs:341`), so what is published while
the client is away is never numbered.

Where the code differs from its comments or from what one would expect, the model follows
the code and the exact condition is proved:

- A history page is the newest `limit` live rows below the cursor only if no queried bucket
  stops short of a live row still needed (`HistoryIsIdealIff`); with nothing deleted this is
  a bound on how deep the cursor lies in a bucket (`HistoryIsIdealIffCursorShallow`).
- Paging back through a channel reaches every row of its ten newest buckets exactly when none
  of them holds more than three pages of rows (`PagingBackReachesAllIff`); deeper rows are on
  no page at all (`DeepRowIsUnreachable`). With deleted rows the condition is on where each
  page's queries stop (`PagingBackReachesLiveIff`).
- A limited catch-up is described as the latest 50 (`services/chat/src/data_service.rs:438`);
  the code returns the last 50 it fetched, which are the latest 50 exactly when no bucket is
  cut off (`SyncWithoutDeletions`, `LimitedSyncMissesTheLatest`; with deleted rows
  `LimitedSyncIsLatestIff`).
- An invalidation of the permission cache is final if and only if no check of its scope
  that had already queried older data was under way when it began (`InvalidationIsFinalIff`).
- An uncached permission check asks several tables in turn. Edits in between can make it
  deny what was allowed all along, never the other way round (`SpreadReadsAreCurrentIff`,
  `GrantsAreCurrent`, `AnswersWereDecisions`).
- Requests with one client id share one message only if all but the first look the key up
  after the first one's id was stored, within its day, and with Redis answering
  (`OneMessageIff`, `OverlapSendsTwice`).
- After a lost expiry the rate limiter's wait never helps (`WaitingHelpsIff`,
  `LostExpiryIsReachable`).
- An upload reported as failed has left the whole object behind if only the answer to its
  last request was lost (`AbandonedLeavesObjectIff`).
- A session whose subscription fails, or whose handshake breaks off after it was created, is
  never marked disconnected and never reaped (`LooplessIsKeptIff`).
- A cancel that hits an already echoed message makes the sender's list differ from
  everybody else's (`SenderSeesWhatReadersSeeIff`), and a POST that fails after its echo marks
  the echoed message as failed for good (`DeliveredStaysConfirmedIff`, `LateFailureSticks`,
  `DeliveredMessageIsLost`).
- A focus change decided on a stale ref can move the read marker back
  (`MarkerIsRightIff`, `MarkerCanFallBack`), and a backfill can show read messages as unread
  (`UnreadIsMissedIff`, `LateBackfillShowsReadMessages`).
- The chat service's own URL-to-key function agrees with the storage client's exactly when
  the public base is a bare origin (`BuildS3KeyIsRightIff`). The comment that a trailing
  slash in the base breaks the storage client's round trip
  (`packages/common-rust/src/storage.rs:105-109`) does not describe the present code, in
  which the round trip holds for every base (`KeyFromUrlInverts`).

## Model

| member | source | states |
|---|---|---|
| ReplayBuffer.EvictKeepsLongestSuffix | services/chat/src/session.rs:52-57 | eviction leaves the longest suffix with at most 512 events and 2 MiB, for every buffer, including one event above the byte cap |
| ReplayBuffer.LongestFittingSuffixIsUnique | services/chat/src/session.rs:18-24 | there is only one such suffix, so the property determines the buffer |
| ReplayBuffer.PushFollowsHistory | services/chat/src/session.rs:46-58 | pushing into an already evicted buffer gives the same buffer as evicting the whole history at once |
| ReplayBuffer.ReplayIsExact | services/chat/src/session.rs:61-86 | for consecutive numbers and k up to the last one, the replay after k exists exactly when everything after k is at most 512 events and 2097152 bytes, and is precisely events k+1..last in order; beyond the last number it is empty |
| SessionStore.SessionInner.Push | services/chat/src/session.rs:46-58 | the eviction loop terminates, keeps the byte total exact and leaves the longest fitting suffix of everything ever pushed |
| SessionStore.Store.Create | services/chat/src/session.rs:150-164 | adds one fresh, empty session and keeps all others |
| SessionStore.Store.ReapExpired | services/chat/src/session.rs:177-188 | keeps exactly the sessions that are connected or were disconnected less than 300 s ago, and returns how many went |
| ChatClient.NextDelay | packages/sdk-chat/src/client.ts:35-37 | the jittered delay is the rounded-down point between 1000 ms and three times the last delay, at most 30000 ms; from any delay of at least 1 s it lies between 1 s and 30 s |
| ChatClient.ChatClient.Connect | packages/sdk-chat/src/client.ts:109-116 | a held socket is left alone; otherwise a socket is opened and the session is kept for a RESUME |
| ChatClient.ChatClient.Disconnect | packages/sdk-chat/src/client.ts:119-137 | forgets the session, the last number and what was handled, cancels the reconnect and resets the delay and the attempts, so the next connection identifies |
| ChatClient.ChatClient.OnClose | packages/sdk-chat/src/client.ts:176-186 | only an unintended close schedules a reconnect with a grown delay; session and last number survive it |
| ChatClient.ChatClient.OnMessage | packages/sdk-chat/src/client.ts:195-251 | the client after a frame and the command it answers with, for every kind of frame, field by field |
| Gateway.HandleIdentify | services/chat/src/gateway.rs:94-132 | a bad token is refused without creating a session; a good one creates a fresh session and announces it first |
| Gateway.HandleResume | services/chat/src/gateway.rs:134-191 | an unknown session or an unreachable number is refused and changes nothing; otherwise the replay and RESUMED are queued in that order and the loop starts from the session's last number |
| Gateway.DispatchEvent | services/chat/src/gateway.rs:48-62 | the event is buffered under its number whether or not the writer still takes it |
| Gateway.RunSession | services/chat/src/gateway.rs:213-347 | with a subscription, buffers every published event under the next number and offers the frames in order, stops at the first close, missed heartbeat or failed dispatch and no later, and marks the session disconnected; without one, returns at once and leaves the session as it is, not marked |
| Gateway.BufferedContinues | services/chat/src/gateway.rs:305-311 | what a loop buffers, appended to a session numbered 1..n from which it started, is again numbered consecutively |
| Gateway.LoopStopsIff | services/chat/src/gateway.rs:294-336 | an input ends the loop if and only if it is a close, an event beyond what the writer takes, or a tick more than 45 s after the loop's start and after every heartbeat so far |
| ResumeSafety.ResumeReplyIsExact | services/chat/src/gateway.rs:134-160 | in every state reached without overlap, a RESUME for k of a stored session is accepted exactly when the events after k fit the caps, with exactly those events |
| ResumeSafety.StepKeepsInv | services/chat/src/gateway.rs:70-347 | every protocol step without overlap keeps the invariant tying buffers, histories, loops, frames in flight and the client together |
| ResumeSafety.DeliveredExactlyOnceInOrder | packages/sdk-chat/src/client.ts:195-251 | over every run without overlap, with loss of any suffix in flight, resumes, refusals, re-identification and reaping, the client has handled exactly events 1..lastSeq of its session, in order, each once |
| ResumeSafety.CaughtUpMeansComplete | services/chat/src/gateway.rs:162-191 | a client that has read an intact attached connection dry has everything ever dispatched in its session |
| ResumeSafety.EarlyResumeIsNotRefused | services/chat/src/session.rs:177-188 | a RESUME less than 300 s after the loop ended is refused exactly if the missed events exceed the caps, whatever reaper passes ran |
| ResumeSafety.FailedIdentifyLeavesOrphan | services/chat/src/gateway.rs:109-132 | a handshake that fails after the session was created, as by a failed subscription, leaves a stored session without a loop and without a disconnect time |
| ResumeSafety.FailedResumeLeavesOrphan | services/chat/src/gateway.rs:158-191 | so does one that fails after a session was marked connected again |
| ResumeSafety.LooplessIsKeptIff | services/chat/src/gateway.rs:222-232 | a session without a loop, if nobody resumes it, survives every run of the reaper if and only if it was not marked disconnected |
| ResumeLaws.DisconnectForgets | packages/sdk-chat/src/client.ts:119-137 | from any reachable state, a client that disconnects has forgotten session, number and handled events, and until it handles the next READY the only command it sends is IDENTIFY, in every run |
| ResumeLaws.SameSessionForgetsNothing | packages/sdk-chat/src/client.ts:176-251 | over every run in which the client stays in one session, through lost connections and resumes, its handled events and its last number only grow |
| ResumeLaws.RefusedClientStartsOver | services/chat/src/gateway.rs:134-160 | a live client whose RESUME is refused gets exactly one frame, INVALID_SESSION, and is without a session after it |
| ResumeLaws.TimedOutClientStartsOver | services/chat/src/gateway.rs:92-198 | a live client that gives no usable command in time starts over once it has read what is on its way |
| ResumeLaws.FailedReplayIsAPrefix | services/chat/src/gateway.rs:162-178 | a connection that fails after some replayed events has got precisely the first of them, in order, and no loop |
| ResumeLaws.ReapIsExact | services/chat/src/session.rs:177-188 | a reaper pass takes exactly the sessions that were disconnected 300 s ago or longer |
| ResumeLaws.LateResumeIsRefused | services/chat/src/session.rs:177-188 | from any reachable state: a session whose loop ends and which nobody resumes for 300 s is gone after the next reaper pass, and every RESUME of it is refused for good |
| ResumeOverlap.OverlapLosesAnEvent | services/chat/src/gateway.rs:147-159 | from any reachable state with a second loop on the session there is a continuation that loses an event |
| ResumeOverlap.OverlapIsReachable | services/chat/src/gateway.rs:134-160 | a run without any overlap leads to the point where a live client's RESUME is about to start a second loop |
| ResumeOverlap.ResumeIsSafeIffExclusive | services/chat/src/gateway.rs:147-178 | answering a RESUME is safe for every continuation if and only if no other loop is attached to the session |
| MultipartUpload.FillFirstPart | packages/common-rust/src/storage.rs:215-227 | reads until a full part or the end, failing exactly with the stream's own error or TooLarge |
| MultipartUpload.FlushFullParts | packages/common-rust/src/storage.rs:302-312 | sends every full part of the buffer, numbered on from the last one, and keeps the rest; a refused part is the last request |
| MultipartUpload.DrainStream | packages/common-rust/src/storage.rs:314-333 | reads the rest of the stream, re-chunking it as it comes, and stops at the first stream error, oversize or refused part |
| MultipartUpload.FinishUpload | packages/common-rust/src/storage.rs:336-359 | sends the trailing part if there is one and completes with every part in order |
| MultipartUpload.RunMultipart | packages/common-rust/src/storage.rs:284-362 | the requests are exactly the parts of the body up to the first failure, and the result says which failure it was |
| MultipartUpload.UploadInParts | packages/common-rust/src/storage.rs:247-281 | any failure after the upload was created is followed by an abort under its own id, with nothing in between |
| MultipartUpload.UploadStream | packages/common-rust/src/storage.rs:200-281 | unless the store fails a request, the outcome is fixed by the bytes alone: too large, the stream's own error, empty (then with no request at all) or the size; success stored exactly those bytes; every failure aborted the upload it had opened, if any, as its last request, and left no object unless the store carried out the final request and only its answer was lost |
| MultipartUpload.SplitAfterFull | packages/common-rust/src/storage.rs:322-332 | full parts cut off while streaming are the first parts of the whole body, whatever follows |
| MultipartUpload.PartsMakeTheBody | packages/common-rust/src/storage.rs:284-362 | the parts concatenate to the body |
| MultipartUpload.PartSizes | packages/common-rust/src/storage.rs:302-347 | all parts but the last have exactly 8 MiB and none is empty |
| MultipartUpload.PartCount | packages/common-rust/src/storage.rs:302-347 | their number is the total divided by the part size, rounded up |
| MultipartUpload.StoredObjectIsTheStream | packages/common-rust/src/storage.rs:349-361 | assembling the listed parts by number and ETag gives back the stream |
| MultipartUpload.SameBytesSameRequests | packages/common-rust/src/storage.rs:200-362 | two successful uploads of the same bytes to stores that answer alike made the same requests, however the bytes were chunked |
| MultipartUpload.AbandonedLeavesObjectIff | packages/common-rust/src/storage.rs:263-281 | after a failed upload there is an object exactly if the answer to the PutObject or completion was lost, and then it is the whole stream |
| MultipartUpload.RequestsOfSuccess | packages/common-rust/src/storage.rs:200-362 | below 8388608 bytes a success is one PutObject of the body; otherwise one creation, the parts 1..n in order, all full but the last, and one completion naming each part with the ETag it came back with |
| MultipartUpload.FailureIsLast | packages/common-rust/src/storage.rs:247-281 | after a refused request nothing is asked but to abort |
| ObjectUrls.KeyFromUrlInverts | packages/common-rust/src/storage.rs:135-167 | a URL has a key exactly when it is the public URL of that key, for every base and bucket |
| ObjectUrls.BuildS3KeyIsRightIff | services/chat/src/api.rs:563-573 | the chat service recovers the key of a public URL exactly when neither the origin part of the base nor the bucket contains a slash |
| ObjectUrls.PathInBaseLeaksIntoKey | services/chat/src/api.rs:563-573 | with one path segment in the base it returns the bucket and the key instead |
| Snowflake.NothingWraps | packages/common-rust/src/snowflake.rs:75-80 | for every 63-bit id no intermediate value leaves its machine type |
| Snowflake.BucketIsMonotone | packages/common-rust/src/snowflake.rs:75-80 | later ids never fall into earlier buckets |
| Snowflake.MintedBucket | packages/common-rust/src/snowflake.rs:61-80 | an id minted at any millisecond, with any sequence and machine bits, has the bucket that the clock formula gives at that millisecond |
| Snowflake.WriteBucketAgrees | services/chat/src/data_service.rs:190-191 | reading the clock again for the partition never gives an earlier bucket than the id's, and the same one exactly until the id's week ends |
| ChannelReads.ReadHistory | services/chat/src/data_service.rs:245-347 | the loop over buckets computes the specified page |
| ChannelReads.GetHistory | services/chat/src/api.rs:424-448 | any requested limit is clamped to 1..100 first |
| ChannelReads.BucketOrderIsRowOrder | services/chat/src/data_service.rs:258-283 | walking the buckets newest first visits all rows in strictly descending id order |
| ChannelReads.HistoryPageShape | services/chat/src/data_service.rs:245-347 | a page is strictly descending, live, below the cursor, from the ten newest buckets, and at most `limit` long |
| ChannelReads.HistoryIsIdealIff | services/chat/src/data_service.rs:285-347 | deleted rows included, a page equals "sort, filter, take" exactly when no bucket's query stops short of a live row still needed |
| ChannelReads.HistoryIsIdealIffCursorShallow | services/chat/src/data_service.rs:285-310 | without deleted rows, exactly when no bucket has more than 2·limit rows at or above the cursor, rows below it, and more than 3·limit rows |
| ChannelReads.FirstPageIsIdeal | services/chat/src/data_service.rs:285-310 | without deleted rows, the page without a cursor is always the newest `limit` rows |
| ChannelRows.PageRows | services/chat/src/data_service.rs:245-347 | everything on a page is a live row of the channel's ten newest buckets below the cursor, newest first, at most `limit` of them |
| ChannelRows.PageIsTheNewest | services/chat/src/data_service.rs:245-347 | if no query stops short of a live row still needed, the page holds exactly the live rows of the ten newest buckets below the cursor that have fewer than `limit` newer ones |
| ChannelRows.PageNearTopIsTheNewest | services/chat/src/data_service.rs:245-347 | without deletions, and with at most 2·limit rows of each of the ten newest buckets at or above the cursor, that holds of every page of 1 to 100 rows |
| ChannelExamples.DeletedRowHidesLiveOne | services/chat/src/data_service.rs:312-343 | a valid channel whose page of one comes back empty although a live row exists |
| ChannelExamples.DeepCursorHidesRow | services/chat/src/data_service.rs:278-283 | a valid channel of four rows without deletions whose page of one below the cursor comes back empty although a row is there |
| HistoryPaging.DeepRowIsUnreachable | services/chat/src/data_service.rs:285-310 | a row with at least 3·limit newer rows in its own bucket is on no page, whatever the cursor and whatever is deleted |
| HistoryPaging.PagingEnds | frontend/contexts/chat-context.tsx:597-618 | asking for the page before the oldest row until a page is empty comes to an end |
| HistoryPaging.PagingBackReachesAllIff | frontend/contexts/chat-context.tsx:540-618 | without deleted rows, a reader that pages back to the end has seen every row of the ten newest buckets once and in order if and only if none of these buckets holds more than 3·limit rows |
| HistoryPaging.PagingBackReachesLiveIff | frontend/contexts/chat-context.tsx:540-618 | deleted rows included, a reader that pages back to the end has seen every live row of the ten newest buckets once and in order if and only if each page, at the first bucket whose query stops short of live rows, has something and gets nothing more from older buckets |
| ChannelReads.ReadSince | services/chat/src/data_service.rs:352-443 | the loop over buckets computes the specified catch-up and its flag |
| ChannelReads.SyncReplyShape | services/chat/src/data_service.rs:352-443 | a catch-up is strictly ascending, live and past the cursor; limited means exactly 50 rows, otherwise at most 300 |
| ChannelReads.UnlimitedSyncIsCompleteIff | services/chat/src/data_service.rs:383-443 | an unlimited catch-up is everything missed in the 30 newest buckets exactly when no bucket has a live row beyond the 301 fetched |
| ChannelReads.AllFetchedIff | services/chat/src/data_service.rs:383-435 | without deleted rows, everything missed is fetched exactly when every bucket with missed rows holds at most 301 of them and is reached with at most 300 gathered |
| ChannelReads.SyncWithoutDeletions | services/chat/src/data_service.rs:435-443 | without deleted rows, limited means exactly that more than 300 were missed, and the 50 rows returned are the latest 50 exactly when no bucket is cut off in that sense |
| ChannelExamples.LimitedSyncMissesTheLatest | services/chat/src/data_service.rs:435-443 | a valid channel with 302 missed rows in one bucket, of which the reply lacks the latest |
| CatchUp.LimitedSyncIsLatestIff | services/chat/src/data_service.rs:383-443 | deleted rows included, a limited catch-up returns the latest 50 live rows that were missed if and only if none of these is beyond row 301 of its bucket or in a bucket reached with more than 300 rows gathered |
| ChannelRows.SyncRows | services/chat/src/data_service.rs:352-443 | a catch-up returns live rows of the channel's thirty newest buckets past the cursor, oldest first: at most 300, or exactly 50 of more than 300 when it says that it is limited |
| ChannelRows.UnlimitedSyncIsAll | services/chat/src/data_service.rs:352-443 | an unlimited reply holds exactly the live rows of the thirty newest buckets past the cursor, if none lies beyond the 301 fetched per bucket |
| ChannelRows.LimitedSyncIsLatest | services/chat/src/data_service.rs:352-443 | a limited reply holds exactly the missed rows with fewer than 50 newer ones, if none of these is lost |
| AclKeys.PrintedIsInjective | services/chat/src/access.rs:51-53 | different integers print differently |
| AclKeys.KeysAreInjective | services/chat/src/access.rs:51-53 | different (hub, channel, user, action) never share a key |
| AclKeys.ChannelPatternIsExact | services/chat/src/acl_consumer.rs:64-74 | the channel glob matches exactly the keys of that channel in that hub |
| AclKeys.UserPatternIsExact | services/chat/src/acl_consumer.rs:64-74 | the user glob matches exactly the keys of that user in that hub, although a star may span colons |
| AclCache.StepKeepsInv | services/chat/src/access.rs:55-97 | every cached or given answer is what the queries of its check saw, in order, in permission data not over before the check began, or the denial a failed query became; and so is what a check under way has seen so far |
| AclCache.AnswersAreRecent | services/chat/src/access.rs:46-97 | over every run each answer comes from a check begun less than 30 s plus the check's latency ago, and says what that check's queries saw, each at its own moment between the check's beginning and the storing of its answer, or is the denial that a failed query became |
| AclCache.AnswersWereDecisions | services/chat/src/access.rs:55-148 | over every run, for a channel that keeps its kind, each answer without a query error is the decision of some moment of its check, except that a user made admin who then loses the grant during the check may be denied |
| AclCache.InvalidationPurges | services/chat/src/acl_consumer.rs:64-95 | an undisturbed SCAN and DEL leave no key of the scope and keep all others |
| AclCache.SweepKnowsOldOnes | services/chat/src/acl_consumer.rs:97-116 | whatever is checked, stored, edited or invalidated while a sweep runs, it still has all entries of its scope that rest on older data in hand, if no check that had queried such data was under way at its beginning |
| AclCache.FlightRevivesStaleAnswer | services/chat/src/access.rs:72-96 | a check under way that has queried older data can put an answer resting on it back, and the next check serves it |
| AclCache.InvalidationIsFinalIff | services/chat/src/acl_consumer.rs:64-116 | for every run during and after an invalidation, no check after its DEL is served an answer of the scope that rests on permission data from before its beginning, if and only if no check of the scope that had already queried such data was under way then |
| AclCache.FirstCheckAfterInvalidation | services/chat/src/access.rs:55-97 | the first check of a question after an invalidation of its scope finds nothing cached, and whenever it ends without a query error it answers from permission data in force since it began, without edits meanwhile with the decision; provided the question was not being checked when the invalidation began, nor asked while it ran |
| AclCache.StoredIsServed | services/chat/src/access.rs:66-97 | over every run that neither replaces nor deletes it, a stored answer is served for 30 s, and from then on a check must query the database |
| PermissionReads.CheckUncached | services/chat/src/access.rs:99-148 | the check ends with the first query that fails or settles the answer and makes no more: a missing channel denies, membership settles a direct channel, admins are allowed, and everybody else needs a grant; a grant was in force at some moment of the check |
| PermissionReads.WhoIsAllowed | services/chat/src/access.rs:99-148 | participants of a direct channel, admins and grantees elsewhere, nobody without a channel |
| PermissionReads.UndisturbedIsExact | services/chat/src/access.rs:99-148 | without edits between the queries the answer is the decision |
| PermissionReads.GrantsAreCurrent | services/chat/src/access.rs:99-148 | with edits between the queries, access is granted only if it was granted at some moment of the check, as long as the channel keeps its kind |
| PermissionReads.DenialsAreCurrent | services/chat/src/access.rs:99-148 | a denial was in force at some moment of the check, or the user was made admin and lost the grant during it |
| PermissionReads.SpreadReadsAreCurrentIff | services/chat/src/access.rs:99-148 | for a channel of any kind that keeps it, every placement of the queries over a history of edits answers with the decision of some moment of the check if and only if nobody, in a channel under group permissions, is made admin and then loses the grant while never denied |
| PermissionReads.PromotionCanDeny | services/chat/src/access.rs:124-147 | a history in which the user is always allowed and a check still denies |
| AclConsumer.CollectMatching | services/chat/src/acl_consumer.rs:97-116 | following the cursor to the end returns every matching key and nothing else |
| AclConsumer.Apply | services/chat/src/acl_consumer.rs:64-95 | deletes exactly the keys of the scope; if SCAN or DEL fails, nothing changes |
| AclConsumer.Check | services/chat/src/access.rs:55-97 | a live cached answer is served unchanged; otherwise the query decides, errors deny, and the answer is served from the cache for exactly the next 30 s |
| RateLimit.CheckRateLimit | services/chat/src/read_state.rs:137-155 | admits while the count is at most the limit and otherwise rejects with the remaining time; increments, and opens the window on a count of one, for every pattern of unanswered commands; an unanswered INCR admits |
| RateLimit.RejectedIff | services/chat/src/read_state.rs:137-155 | over every ordered sequence of calls with Redis up, a call is rejected if and only if at least `limit` earlier calls fell into its window, windows being defined by the call times alone, and its wait is the time left to that window's end |
| RateLimit.WindowOpenedBefore | services/chat/src/read_state.rs:144-147 | while Redis answers, every counter has an expiry of one window after the call that opened it |
| RateLimit.AtMostTwiceTheLimit | services/chat/src/read_state.rs:137-155 | any interval of one window's length sees at most 2·limit admitted calls |
| RateLimit.WaitingHelps | services/chat/src/read_state.rs:151-154 | a rejection's wait is between 1 and the window, and the next call after it is admitted |
| RateLimit.WaitingHelpsIff | services/chat/src/read_state.rs:130-155 | after any history of failures, a rejection's wait is between 1 and the window, and the next answered call after it is admitted exactly when the counter has an expiry |
| RateLimit.LostExpiryIsReachable | services/chat/src/read_state.rs:144-147 | losing the EXPIRE of the first calls of a window leads to a rejection with a counter that has no expiry |
| RateLimit.LostExpiryLocksOut | services/chat/src/read_state.rs:130-155 | a counter that has lost its expiry rejects every later answered call over the limit for a full window |
| Idempotency.KeysAreInjective | services/chat/src/read_state.rs:101-103 | different users or client ids never share a key, colons in client ids included |
| Idempotency.ChatApi.SendMessage | services/chat/src/api.rs:95-238 | not permitted, no content and not admitted are refused in this order, each without any change; otherwise a known client id is answered as a duplicate without any change; otherwise a failed write changes nothing, and a working one uses the next id, remembers it for 86400 s and announces it if the publication works |
| Idempotency.OnlyAcceptedLeaveATrace | services/chat/src/api.rs:95-208 | over every sequence of requests, whatever is remembered or announced is the message of a request that was permitted, had content, was admitted and was written |
| Idempotency.CreatedIdsDiffer | services/chat/src/api.rs:153-208 | no two requests create messages with the same id |
| Idempotency.SameMessageExactlyForADay | services/chat/src/api.rs:123-208 | a later successful request with the same user and client id gets the same message id exactly when it comes within 86400 s |
| Idempotency.AnnouncedExactlyOnce | services/chat/src/api.rs:123-208 | within that time the message is announced exactly once if its own publication works and never if it fails, whatever comes in between |
| SendRace.OneMessageIff | services/chat/src/api.rs:123-208 | over every interleaving of lookup, write, SET EX and reply, with Redis and the database failing at will, once all requests have been answered: all successful responses for a user and client id carry one message id if and only if every request that can write, except the first to look up, is answered by Redis after the first one's id was stored and within 86400 s of it |
| SendRace.AnswerComesFromSource | services/chat/src/api.rs:123-208 | in every such run, answered in full or not, a successful response carries the id of the request that was last to store one before its lookup, if it can find one, and otherwise its own |
| SendRace.OneSourceIff | services/chat/src/api.rs:123-208 | over every run, with requests dropped at any point, the successful responses so far carry one message id if and only if they all come from one request in that sense |
| SendRace.NoWriterNoSuccess | services/chat/src/api.rs:123-208 | without a request that can write there is no successful response |
| SendRace.OverlapSendsTwice | services/chat/src/api.rs:123-208 | two requests that look up before either stores are answered with two messages |
| SendRace.InTurnSendsOnce | services/chat/src/api.rs:123-208 | with the key free, a request that is through before the next one looks up, within 86400 s, is the only one that creates a message; the next one gets its id |
| Sanitize.SanitizeContent | services/chat/src/api.rs:575-590 | the loop computes the squeezed text |
| Sanitize.RunsAreCapped | services/chat/src/api.rs:575-590 | every maximal newline run of length n becomes min(n, 2) newlines and all other characters stay in order |
| Sanitize.EveryStringIsText | services/chat/src/api.rs:575-590 | every string is a sequence of words and maximal runs, so the law covers every input |
| Sanitize.NoThreeInARow | services/chat/src/api.rs:575-590 | the result never has three consecutive newlines |
| Sanitize.SqueezeIsIdempotent | services/chat/src/api.rs:575-590 | squeezing twice is squeezing once |
| MessageList.StepKeepsInv | frontend/contexts/chat-context.tsx:241-346 | every local action and broadcast keeps client ids unique in the list |
| MessageList.RunKeepsInv | frontend/contexts/chat-context.tsx:241-346 | so client ids are unique in the list after every run |
| MessageList.EchoAndRetryMoveToEnd | frontend/contexts/chat-context.tsx:241-263 | an echo or an effective retry leaves its entry last and all others in their order |
| MessageList.NewMessageIsLast | frontend/contexts/chat-context.tsx:241-263 | whatever arrives is listed last; only its own earlier entry goes |
| MessageList.SentMessageStays | frontend/contexts/chat-context.tsx:680-772 | a sent message is listed last as being sent; over every run without its echo, cancel or delete it stays listed, a failure then shows it as failed in its place, and a retry puts it last again as being sent |
| MessageList.CancelledIsGone | frontend/contexts/chat-context.tsx:778-787 | over every run without its echo a cancelled message is not listed, and nothing is left that a retry could send |
| MessageList.StepAgrees | frontend/contexts/chat-context.tsx:241-346 | with optimistic entries erased, a step acts on the sender's list as on any reader's, exactly when it is not a cancel of an echoed message |
| MessageList.SenderSeesWhatReadersSeeIff | frontend/contexts/chat-context.tsx:680-787 | over every run, the sender's list without optimistic entries is at every moment the list of a reader who sees the same broadcasts, if and only if no cancel hits an echoed message |
| MessageList.DeliveredStaysConfirmedIff | frontend/contexts/chat-context.tsx:680-690 | over every run, delivered messages are shown as sent at every moment if and only if no failure is reported for an entry that has been echoed |
| MessageList.LateFailureSticks | frontend/contexts/chat-context.tsx:680-772 | over every run, a delivered message shown as failed stays so until a repeated echo, a cancel or a delete of that very message |
| MessageList.DeliveredMessageIsLost | frontend/contexts/chat-context.tsx:680-787 | a run in which a message is sent and delivered, is shown as failed, is cancelled, and is then missing for its sender alone |
| Unread.StepRaisesMarker | frontend/contexts/chat-context.tsx:171-198 | a step moves the read marker to the larger of itself and the id read, or is a stale focus and moves it back |
| Unread.MarkerIsRightIff | frontend/contexts/chat-context.tsx:508-537 | over every run, in any order and with any delay of renders, the marker is always the highest id read so far exactly when no focus is stale |
| Unread.PromptIsNeverStale | frontend/contexts/chat-context.tsx:159-162 | when refs equal the committed state no focus is stale |
| Unread.MarkerCanFallBack | frontend/contexts/chat-context.tsx:508-537 | a run with an own message from another window in which the marker falls from 5 to 3 |
| Unread.UnreadCoversMissed | frontend/contexts/chat-context.tsx:282-310 | over every run, however late the renders, the counter is at least the number of foreign messages received unfocused since the last reset |
| Unread.UnreadIsMissedIff | frontend/contexts/chat-context.tsx:459-474 | with prompt renders, over every run the counter is exactly that number if and only if no backfill since the last reset reported more than had been missed when it came |
| Unread.LimitedBackfillCounts | frontend/contexts/chat-context.tsx:459-474 | after a limited backfill of a channel with a row the counter is the largest of 300, what was counted and what was found |
| Unread.PlainBackfillCounts | frontend/contexts/chat-context.tsx:459-474 | after any other backfill the counter is the larger of what was counted and what was found; a channel without a row stays as it was |
| Unread.LateBackfillShowsReadMessages | frontend/contexts/chat-context.tsx:438-474 | a run in which everything has been read and a late backfill shows two messages as unread |
| VoiceActivity.VideoClient.CheckSpeakingLevels | packages/sdk-video/src/client.ts:1224-1284 | one poll moves all analysed participants by their levels over bins 1 to 11 and emits one event for each flag that changed, in order |
| VoiceActivity.LevelIsBetween | packages/sdk-video/src/client.ts:1244-1249 | a level lies between the least and the greatest of bins 1 to 11 |
| VoiceActivity.OtherBinsDoNotCount | packages/sdk-video/src/client.ts:1244-1249 | no other bin has any influence on it |
| VoiceActivity.BinsCountEqually | packages/sdk-video/src/client.ts:1244-1249 | it rises by 1 when one of these bins rises by 11 |
| VoiceActivity.LoudBinsAreHeard | packages/sdk-video/src/client.ts:1224-1284 | a silent participant whose bins 1 to 11 all exceed 22 is speaking after one poll, and one whose bins are all at most 22 is not |
| VoiceActivity.PolledOnce | packages/sdk-video/src/client.ts:1245-1284 | each present participant with an analyser makes one tick on its own level, and nobody else changes |
| VoiceActivity.SpeakingIff | packages/sdk-video/src/client.ts:1258-1274 | after any trace of one participant's levels the state machine says speaking exactly when some tick exceeded 22 and no 8 consecutive ticks below 12 followed; the counter stays in 0..7 |
| VoiceActivity.ClientFollowsTrace | packages/sdk-video/src/client.ts:1224-1284 | over every run of polls with others joining and leaving, a participant present from silent is in the state its own levels give, and the client's events for it are exactly the changes along them |
| VoiceActivity.IndicatorFollowsOwnVoice | packages/sdk-video/src/client.ts:1224-1284 | so over every such run the indicator has that meaning, and the emitted changes of a participant alternate, starting with "speaking" and ending with the current value |

## Left out

- Sequence numbers, byte totals and part numbers are unbounded here; their 64-bit and 32-bit limits are not modelled.
- JSON encoding: a buffered event is its content and its encoded length.
- Session ids and client ids are fresh by assumption (random UUIDs); another client knowing a session id is not modelled.
- The client holds one socket: a second one opened by `connect()` while a reconnect timer is pending is not modelled.
- Removing a session by id, which nothing in the service calls.
- Token verification is a yes-or-no parameter, and the permission filter in the subscription task is not part of the session loop here.
- Heartbeat timers of the chat client: the first delay is not tracked there, so no single-timer claim is made.
- Live delivery of edits and deletes: they are published under upper-case suffixes (services/chat/src/api.rs:293) and matched in lower case (services/chat/src/gateway.rs:254-255), so no delivery claim is made for them.
- S3 error texts, ETag contents and the store's own limit of 10,000 parts.
- Partitions are ordered row sequences, and each row is assumed to lie in the bucket of its id; `WriteBucketAgrees` says when a write does that. A concurrent write during a read is not modelled.
- The permission decision is an arbitrary function of the current database; the permission-bit folds are not modelled.
- AclCache.AnswersWereDecisions: assumes that a channel keeps its kind, because deleting a channel during a check mixes tables in a way that no moment accounts for; the answer is then still what the queries saw (`AnswersAreRecent`).
- AclConsumer.CollectMatching: SCAN walks a fixed order here; stores between its pages are part of `AclCache`.
- RateLimit.AtMostTwiceTheLimit: assumes that Redis answers every command with whole-second TTLs; with an unanswered INCR the code admits any number of calls.
- Idempotency.SameMessageExactlyForADay: covers requests handled one after another with Redis up; `OneMessageIff` covers the rest.
- MessageList.SenderSeesWhatReadersSeeIff: covers one channel whose list exists; the merges of `ensureHistory` and `loadMore`, attachments, typing indicators and toasts are not modelled, and no uniqueness claim is made across them.
- Unread.MarkerIsRightIff: covers one channel from a fresh provider; the divider and the server's own counters are not modelled.
- FFT and Web Audio, WebRTC signalling and the alias map of participants: a poll starts from the analyser's byte values.
- User interface, direct-message calls, markdown, image probing and the small local stores, which would only add easy members.
