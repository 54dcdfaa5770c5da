# Die management system: a verified model

The system keeps wire-drawing dies in a database and mirrors them into a search index, pushes
live events to browsers, caches searches, manages user sessions, writes a hash-chained audit
log, imports spreadsheets, numbers documents and raises wear alerts. This project models the
parts of it that carry state over long runs and proves what those parts are for.

Each component comes in two layers that are tied together:

- a transition system or a specification function on plain values (`...Model`, `EventHub`,
  `GenerationCache`, `WearAlerts`, ...) with an invariant and the theorems over all runs;
- a class or a method in the form of the code (`...Service`, `...Store`, `...Manager`, ...),
  whose loops and assignments are proved to make exactly that transition.

| files | component |
|---|---|
| `OutboxModel`, `OutboxCoverage`, `OutboxDrain`, `OutboxLaws`, `OutboxService` | transactional outbox and search index |
| `EventHub`, `EventQueues`, `EventManager`, `Deduplication`, `EventListener` | event hub, deduplicator, listener |
| `GenerationCache`, `CacheService` | generation-counter cache |
| `SessionModel`, `SessionEnds`, `SessionStore` | session time limits and cap |
| `HashChain`, `FieldLog`, `FieldColumns`, `AuditLog`, `MachineLog` | hash chains and field-change log |
| `ImportModel`, `ImportRows`, `ImportReasons`, `ImportProperties`, `ImportService` | bulk import |
| `ReferenceNumbers`, `Texts`, `Options` | document numbering, text and decimal facts |
| `WearAlerts`, `WearLaws`, `WearService` | wear alerts and recut |
| `HistoryGrouping`, `FeaMesh`, `FeaMeshLaws`, `Traceparent` | history grouping, mesh buffer, trace header |

Results that say a promise does not hold as one would expect, each with an exact condition or
a concrete input:

- a reconnecting client can miss an event between backfill and registration
  (`ReconnectCanMissAnEvent`, exact condition in `ReconnectIsGapFreeIff`), or be shown one twice
  (exact condition in `ReconnectRepeatsIff`);
- a value computed before an invalidation and stored after it survives
  (`LateSetSurvivesInvalidation`);
- an old and a new value joined by a colon are determined only when both have no colon
  (`JoinedFixesValuesIff`, `ColonsAreAmbiguous`);
- a renamed set breaks replay of the set field and an import that of any field it changes
  (`RenamedSetBreaksReplay`, `ImportBreaksReplay`; exact conditions in `ReplayIsCurrentIff` and
  `LogIsLinkedIff`);
- a dry run counts more dies as created than the real run just when an accepted row names a
  new die that an earlier accepted row created (`DryRunPredicts`);
- a changed tolerance can leave alerts stale until the next check (`ToleranceChangeGoesUnnoticed`,
  exact conditions in `ToleranceChangeIsHarmlessIff` and, over runs, `CurrentIffSameLevel`),
  and a recut clears the alert just when both percentages are positive (`RecutDie`);
- the import template calls the shelf column optional and lists the statuses MEASURING and
  INACTIVE (`backend/dies/views.py:330-332`); the code refuses a CSV row whose shelf
  cell is blank, and both statuses, and the model follows the code (`BlankShelfIsRefused`,
  `ListedStatusesAreRefused`);
- the profile and the strain of the mesh jump where the bell meets the cone (`BellAndConeDoNotMeet`);
- a trace header is read back just when its trace id is well formed (`RoundTrip`).

## Model

| member | source | states |
|---|---|---|
| OutboxCoverage.StepCovers | backend/search/tasks.py:331-457 | every step (transaction, import, batch with any failures, queued task, prune, set rename, rebuild) keeps: a die whose index entry differs from its row has a pending row, task or import of the right kind |
| OutboxCoverage.RunsKeepCoverage | backend/search/tasks.py:320-498 | the same over every run of such steps |
| OutboxCoverage.QuiescentAgreement | backend/search/tasks.py:339-341 | with nothing outstanding the index is exactly the documents of the die table |
| OutboxCoverage.QuiescentRunsAgree | backend/search/tasks.py:320-498 | any run from an empty system that ends with nothing outstanding ends with index = database |
| OutboxCoverage.ProcessCovers | backend/search/tasks.py:351-457 | one batch keeps coverage whichever uploads fail, however much of them landed and whichever fallbacks could be queued |
| OutboxCoverage.RunTaskCovers | backend/search/tasks.py:60-191 | a queued task, run or failed, keeps coverage |
| OutboxCoverage.TransactCovers | backend/dies/services/search_service.py:14-47 | a transaction of creates, saves and deletes keeps coverage although each die is enqueued once only |
| OutboxCoverage.ApplyOpCovers | backend/dies/signals.py:118-144 | each create, save or delete leaves its die covered inside the open transaction |
| OutboxCoverage.SaveSetsCovers | backend/machines/signals.py:18-37 | renaming sets or machines leaves every affected die covered by a batch task |
| OutboxCoverage.ImportCovers | backend/dies/services/search_service.py:71-97 | committed import rows stay covered until they are enqueued, and after |
| OutboxCoverage.PruneKeepsPending | backend/search/tasks.py:483-498 | pruning never removes a pending row of any kind and die |
| OutboxDrain.RebuildEqualsDrain | backend/search/tasks.py:246-292 | in a covered state without queued tasks a rebuild gives exactly the index a drain would, and a drain after it changes nothing |
| OutboxDrain.BatchKeepsSettled | backend/search/tasks.py:351-438 | a failure-free batch, whatever rows it takes, does not change the index the pending rows lead to |
| OutboxDrain.ScheduleReachesSettled | backend/search/tasks.py:333-438 | every schedule of failure-free batches that empties the outbox ends in that one index |
| OutboxDrain.DrainsAreConfluent | backend/search/tasks.py:333-438 | two schedules, any partition, order or duplication of rows asking for the same dies, end in the same index |
| OutboxDrain.ChainDrains | backend/search/tasks.py:344-478 | the self-scheduling worker empties n pending rows in exactly ceil(n/250) non-empty runs and reaches that index |
| OutboxDrain.DrainSynchronises | backend/search/tasks.py:320-478 | from any covered state without queued tasks, one drain makes the index equal to the database |
| OutboxLaws.SelectionIsOldestFree | backend/search/tasks.py:333-337 | a run takes, in order, the oldest pending rows no other worker has locked; a free row is left out only when as many as the limit, all older, were taken |
| OutboxLaws.RowFate | backend/search/tasks.py:351-457 | a row of a batch is closed, with the time of the run, exactly when its digest or kind is bad, its upload succeeded or its own fallback was queued; every other row stays as it is |
| OutboxLaws.IndexFate | backend/search/tasks.py:382-457 | after a batch a die's document is the present one if a sync row asked and the upload landed, else gone if a delete row asked and the deletion landed, else as before |
| OutboxLaws.TaskFate | backend/search/tasks.py:405-457 | a failed upload queues exactly one task for each of its rows that could be queued, a successful one none |
| OutboxLaws.DiesAreLastWritten | backend/dies/signals.py:118-144 | over every run each die is as the last create, save, import or delete of it left it |
| OutboxLaws.SetsAreLastSaved | backend/machines/signals.py:18-37 | over every run each set is as it was last saved |
| OutboxLaws.TransactionEnqueues | backend/dies/services/search_service.py:14-127 | a transaction enqueues one sync row for each die it creates or saves, however often, and one delete row for each deletion; no earlier row, document or task changes |
| OutboxLaws.SearchShowsLastWritten | backend/search/tasks.py:14-40 | after any run that ends with nothing outstanding a search finds exactly the dies there are, with the columns last written and the name and machine of the set as last saved |
| OutboxLaws.PruneKeepsExactly | backend/search/tasks.py:492-496 | pruning keeps, in order, exactly the rows that are pending or were processed at or after the cutoff |
| OutboxLaws.TaskRunFate | backend/search/tasks.py:58-191 | a queued task changes only the documents of its own dies, and takes one copy of itself off the queue if it succeeded |
| OutboxLaws.SetSaveQueues | backend/machines/signals.py:18-37 | saving sets queues one upload of just the dies in them, or none if there are none |
| OutboxLaws.OtherStepsTouchOnlyTheirs | backend/search/tasks.py:219-498 | imports, pruning, rows from outside and a rebuild leave the documents, rows and tasks that are not theirs |
| OutboxService.SearchSync.QueueDieSync | backend/dies/services/search_service.py:14-47 | adds one row and one pending id unless the id is pending already or single syncs are switched off |
| OutboxService.SearchSync.CreateDie | backend/dies/signals.py:129-131 | a created die is stored under a fresh key and enqueued; coverage inside the transaction is kept |
| OutboxService.SearchSync.SaveDie | backend/dies/signals.py:129-139 | a saved die is stored and enqueued; coverage inside the transaction is kept |
| OutboxService.SearchSync.RemoveDie | backend/dies/services/search_service.py:104-127 | a deleted die leaves a delete row with its key; coverage inside the transaction is kept |
| OutboxService.SearchSync.RunTransaction | backend/dies/services/search_service.py:14-47 | a transaction of any creates, saves and deletes makes exactly the transaction step, forgets the queued ids at commit and keeps coverage |
| OutboxService.SearchSync.SyncDiesBatch | backend/dies/services/search_service.py:71-97 | appends one sync row for each id, in order, and settles what the import owed |
| OutboxService.SearchSync.Classify | backend/search/tasks.py:346-380 | closes exactly the rows with a missing or wrong digest or of unknown kind and splits the others by kind, in order |
| OutboxService.SearchSync.FallBack | backend/search/tasks.py:405-415 | one individual task for each row that could be queued; exactly those rows are closed |
| OutboxService.SearchSync.ProcessDeletes | backend/search/tasks.py:382-415 | the delete pass: keys gone from the index, rows closed, fallbacks queued; nothing at all when no payload names a die |
| OutboxService.SearchSync.ProcessSyncs | backend/search/tasks.py:417-457 | the sync pass: documents of the current rows uploaded, rows closed, fallbacks queued |
| OutboxService.PassesCloseBatch | backend/search/tasks.py:351-457 | the three passes together close exactly the rows the transition closes |
| OutboxService.SearchSync.ProcessPending | backend/search/tasks.py:346-457 | the passes over one batch make the batch transition, with every combination of failures |
| OutboxService.SearchSync.ProcessOutbox | backend/search/tasks.py:331-344 | takes the oldest unlocked pending rows, at most 250, does nothing without any, and asks for another run just when there were 250 |
| OutboxService.SearchSync.ProcessOutboxSafely | backend/search/tasks.py:320-457 | the worker keeps the coverage invariant whatever fails |
| OutboxService.SearchSync.DrainOutbox | backend/search/tasks.py:476-478 | a trigger with the runs it schedules itself is the chain of drains, with the number of runs |
| OutboxService.SearchSync.SyncDieTask | backend/search/tasks.py:58-91 | uploads the current row, is done when the die is gone, stays queued on failure whether the upload landed or not |
| OutboxService.SearchSync.DeleteDieDocumentTask | backend/search/tasks.py:93-123 | deletes the document, stays queued on failure whether the deletion landed or not |
| OutboxService.SearchSync.SyncDiesBatchTask | backend/search/tasks.py:125-191 | uploads in chunks of 100; all ids when no chunk fails, else exactly those of the earlier chunks and the landed part of the failing one, and the work stays queued |
| OutboxService.SearchSync.PruneProcessed | backend/search/tasks.py:492-496 | keeps, in order, exactly the rows that are pending or young enough |
| OutboxService.FillTempIndex | backend/search/tasks.py:270-284 | batches of 100 fill the temporary index with the document of every die, in whatever order the dies are listed |
| OutboxService.SearchSync.RebuildIndex | backend/search/tasks.py:219-317 | the swapped-in index is exactly the documents of the die table; a rebuild that raises has not touched the index |
| EventHub.StepKeepsInv | go-api/internal/events/events.go:47-121 | every step keeps: window, queues, and for each channel exactly the run of events since its registration |
| EventHub.DeliveryIsGapFree | go-api/internal/events/events.go:49-98 | in every reachable state what was put on a client's channel is a contiguous run of ids from its registration, up to the newest while it is registered |
| EventHub.MissedMeansDropped | go-api/internal/events/events.go:76-98 | at a broadcast each client either gets the event or is removed and closed in that very step |
| EventHub.RunsNeverPanic | go-api/internal/events/events.go:55-98 | no reachable step sends on a closed channel or closes one twice |
| EventHub.ClosedStaysAsIs | go-api/internal/events/events.go:55-98 | a closed channel never rejoins, is never closed or written again |
| EventHub.UnreadQueueGrows | go-api/internal/events/events.go:76-98 | the queue of a client that reads nothing grows by one for each broadcast handled until it is dropped |
| EventHub.DeadClientsGoAway | go-api/internal/events/events.go:76-113 | such a client is removed and closed after at most capacity - queued + 1 broadcasts, whatever became of its unregister request |
| EventHub.BackfillIsExact | go-api/internal/events/events.go:63-133 | the window holds exactly the last min(n, 500) ids; a backfill from k gives exactly k+1.. up to the newest, or the whole window when k is older |
| EventHub.ReconnectIsGapFreeIff | go-api/internal/handlers/handlers.go:867-893 | a client that reconnects naming any last id, one from before a restart included, misses nothing newer if and only if its registration was handled no later than the event after its backfill with the window reaching back to the first unseen event, or no later than that first unseen event |
| EventHub.ReconnectCanMissAnEvent | go-api/internal/handlers/handlers.go:867-893 | a concrete run in which a reconnecting client never sees event 1 |
| EventHub.ReconnectRepeatsIff | go-api/internal/handlers/handlers.go:867-893 | the events shown twice are those of the backfill from the registration on; there are some if and only if the registration was handled before the newest event the backfill contains |
| EventHub.ReconnectShowsOnceIff | go-api/internal/handlers/handlers.go:867-893 | with anything to backfill, nothing is missed and nothing repeated if and only if no event was numbered between backfill and registration and the window reached back far enough |
| EventQueues.NoMessageIsLost | go-api/internal/events/events.go:63-121 | over every run, the messages numbered and those waiting are, in order, what was there before and every message that found fewer than 512 waiting |
| EventQueues.RegistrationsKeepOrder | go-api/internal/events/events.go:50-105 | registrations are handled one at a time in the order they came, none lost |
| EventQueues.DeparturesKeepOrder | go-api/internal/events/events.go:55-113 | so are the departures that found fewer than 256 waiting |
| EventQueues.RequestsOnlyQueue | go-api/internal/events/events.go:103-121 | a request goes to the end of its queue, or nowhere if 256 departures or 512 messages wait, and does nothing else; a registration brings a new, empty, open channel of the given size |
| EventQueues.RegistrationLetsIn | go-api/internal/events/events.go:50-54 | a handled registration lets the client in from the next event on and touches no other |
| EventQueues.DepartureLetsGo | go-api/internal/events/events.go:55-62 | a handled departure takes the client out and closes its channel with what is on it; one gone already and all others keep theirs |
| EventQueues.DeparturesTakeEffect | go-api/internal/events/events.go:55-62 | a client whose departure waits at place p is out and closed once p + 1 more departures were handled, whatever else happened |
| EventQueues.BroadcastReachesExactly | go-api/internal/events/events.go:63-98 | a broadcast puts the next event on the channel of every client with room, removes and closes exactly those without, and changes no other channel |
| EventQueues.ClientsLeaveOnlyFullOrAsked | go-api/internal/events/events.go:55-98 | a client leaves only by its own departure or with a full channel |
| EventQueues.ReadersSeeNoGap | go-api/internal/handlers/handlers.go:899-913 | over every run what a reader took off its channel are consecutive events from its registration on, and what is left comes next |
| EventManager.Manager.RequestRegister | go-api/internal/events/events.go:103-105 | queues the registration of a new channel |
| EventManager.Manager.RequestUnregister | go-api/internal/events/events.go:107-113 | queues the request or drops it when 256 wait |
| EventManager.Manager.RequestBroadcast | go-api/internal/events/events.go:115-121 | queues the message or drops it when 512 wait |
| EventManager.Manager.OnRegister | go-api/internal/events/events.go:50-54 | the registered client receives from the next id on |
| EventManager.Manager.OnUnregister | go-api/internal/events/events.go:55-62 | removes and closes a client that is there, ignores one that is not |
| EventManager.Manager.SendToAll | go-api/internal/events/events.go:76-86 | offers the event to every client; the stale ones are exactly those with a full queue |
| EventManager.Manager.DropStale | go-api/internal/events/events.go:88-98 | removes and closes exactly the stale clients |
| EventManager.Manager.OnBroadcast | go-api/internal/events/events.go:63-98 | numbering, window and delivery together are the broadcast transition |
| EventManager.Manager.WriteBackfill | go-api/internal/events/events.go:123-133 | writes, in order, the events of the window after the given id |
| EventManager.Manager.Serve | go-api/internal/events/events.go:47-101 | the select loop follows every run of the transition system without a panic |
| Deduplication.PruningIsInvisible | go-api/internal/events/events.go:157-178 | for payloads in time order the pruned map answers exactly as one that never forgets |
| Deduplication.AcceptedIffNoneWithinWindow | go-api/internal/events/events.go:161-177 | a payload is accepted if and only if no accepted copy lies less than one window before it |
| Deduplication.SeenIsNewestCopy | go-api/internal/events/events.go:176-177 | the map remembers the newest accepted copy of each payload |
| Deduplication.AcceptedPayloadIsRemembered | go-api/internal/events/events.go:168-177 | an accepted payload is remembered with its time; others are forgotten exactly if more than two windows old while more than 1000 are remembered |
| Deduplication.Deduplicator.ShouldProcess | go-api/internal/events/events.go:157-178 | the answer and the new map, the collection of old entries above 1000 included |
| Deduplication.Deduplicator.Filter | go-api/internal/events/events.go:157-178 | over a whole sequence the pruning code gives the answers of the unpruned map |
| EventListener.Listener.ProcessEvent | go-api/internal/events/events.go:184-194 | a duplicate does nothing, cache and clients included; a fresh event is broadcast and, if it came from Postgres or the Redis channel and the cache is connected, flushes every search key of the instance; without a connection the rest still happens |
| EventListener.Listener.OnNotify | go-api/internal/cache/cache.go:95-116 | the flush on its own: nothing without a connection, else no search key is served to this instance any more |
| GenerationCache.ResolveInjective | go-api/internal/cache/cache.go:59-79 | two keys share a stored key only if they are equal and, for search keys, of one generation |
| GenerationCache.SearchKeysCarryGeneration | go-api/internal/cache/cache.go:59-79 | the form of a stored search key; other keys are stored as they are |
| GenerationCache.StepKeepsInv | go-api/internal/cache/cache.go:45-123 | with any number of instances, no stored search key and no instance is ahead of the shared counter |
| GenerationCache.CounterCountsInvalidations | go-api/internal/cache/cache.go:45-116 | over every run the shared counter is one more than the invalidations |
| GenerationCache.InstancesFollowCounter | go-api/internal/cache/cache.go:45-116 | an instance takes the counter over when it opens or invalidates, and at no other time |
| GenerationCache.InvalidateActsAsFlush | go-api/internal/cache/cache.go:95-116 | after an invalidation every search key misses for that instance; no other instance and no other key but stats:fresh sees a difference |
| GenerationCache.SetIsSeenByItsGeneration | go-api/internal/cache/cache.go:88-93 | a set is seen by exactly the instances of that generation (by all, for other keys) and changes no other key |
| GenerationCache.DeleteIsSeenByItsGeneration | go-api/internal/cache/cache.go:118-123 | the same for a delete |
| GenerationCache.ReadsGiveLastWriteOfGeneration | go-api/internal/cache/cache.go:59-116 | over every run a hit is the last value set under the instance's generation; right after its own invalidation nothing is |
| GenerationCache.NothingIsLostWithoutExpiry | go-api/internal/cache/cache.go:81-93 | without expiry a read gives the last write of its generation and never a miss instead |
| GenerationCache.LateSetSurvivesInvalidation | go-api/internal/cache/cache.go:88-116 | a value set after an invalidation is served even if it was computed before it |
| CacheService.Cache.constructor | go-api/internal/cache/cache.go:20-53 | opens at the shared generation, or creates it as 1; without a connection the cache is disabled |
| CacheService.LoadingIsALateOpening | go-api/internal/cache/cache.go:59-79 | an instance without a generation opens at its first search key; one with a generation keeps it |
| CacheService.Cache.ResolveKey | go-api/internal/cache/cache.go:59-79 | loads the generation on first use and prefixes search keys with it |
| CacheService.Cache.Get | go-api/internal/cache/cache.go:81-86 | disabled, miss or the value under the resolved key |
| CacheService.Cache.Put | go-api/internal/cache/cache.go:88-93 | stores under the resolved key |
| CacheService.Cache.Remove | go-api/internal/cache/cache.go:118-123 | removes the resolved key |
| CacheService.Cache.InvalidateAll | go-api/internal/cache/cache.go:95-116 | drops stats:fresh and moves counter and instance to the next generation |
| SessionModel.StepKeepsInv | backend/users/services/session_service.py:67-122 | every step of login, password change, request, refresh, logout, sweep or lost cache entries keeps the bounds between row, cache entry and last activity |
| SessionModel.LastSeenIsNearActivity | backend/users/services/session_service.py:90-122 | in every reachable state the cached time is at most 1 minute, the stored one less than 6 minutes behind the last activity |
| SessionModel.AcceptedOnlyInTime | backend/users/services/session_service.py:67-87 | no request is accepted later than the idle limit after the last activity or the absolute limit after the login |
| SessionModel.NotRefusedEarly | backend/users/services/session_service.py:67-87 | no request is refused up to 1 minute before the idle limit (6 minutes if the cache entry was lost) |
| SessionModel.RefreshKeepsOrigin | backend/users/views/auth.py:961-984 | a refresh passes on the login time and the old token is dead |
| SessionModel.OriginIsALogin | backend/users/views/auth.py:961-984 | every session in every run goes back to a login or password change of that run |
| SessionModel.AbsoluteLimitCountsFromLogin | backend/users/services/session_service.py:72-75 | however many refreshes, an accepted request lies within the absolute limit of a login |
| SessionModel.SessionsAreCapped | backend/users/views/auth.py:138-163 | no user ever holds more than max(1, limit) sessions |
| SessionModel.LoginFillsUpToCap | backend/users/views/auth.py:141-144 | a login evicts nothing below the limit and leaves exactly the limit otherwise |
| SessionModel.EvictionIsNearLru | backend/users/views/auth.py:140-163 | an evicted session is stored as seen no later than any survivor, and was truly active less than 6 minutes after it |
| SessionEnds.StepEndsExactly | backend/users/views/auth.py:138-171 | a session is there after a step exactly when the step opened it, or it was there and was not evicted, logged out, timed out, renamed, swept or ended by a password or security change |
| SessionEnds.EndedIsDead | backend/users/views/auth.py:905-912 | a session so ended leaves neither row nor cache entry |
| SessionEnds.OthersAreJudgedAsBefore | backend/users/views/auth.py:905-912 | every other issued token is judged, at any later moment, as it was before the step |
| SessionEnds.NeverAcceptedAgain | backend/users/services/session_service.py:20-64 | over every run a token without row and cache entry is refused ever after |
| SessionEnds.OpenUntilEnded | backend/users/views/auth.py:905-912 | over every run an open session lives until the first logout, eviction, change, refresh, sweep or timeout of its token, and its token is never accepted after that |
| SessionEnds.OpenedIsStored | backend/users/views/auth.py:154-171 | a login or password change stores a session of that moment; a refresh passes on the login time |
| SessionEnds.IssuedTokensStay | backend/users/views/auth.py:961-984 | no token is handed out twice |
| SessionEnds.IdleLimitCountsFromLastUse | backend/users/services/session_service.py:67-87 | in every run a request is accepted only within the idle limit of the last login, refresh or accepted request of its token, and is accepted up to 1 minute (6 without cache entry) short of it |
| SessionEnds.RowWritesAreApart | backend/users/services/session_service.py:100-122 | as long as the write-back mark is not lost, requests write a token's row at least 5 minutes apart |
| SessionEnds.EntryWritesAreApart | backend/users/services/session_service.py:90-99 | an accepted request rewrites its cache entry exactly when that is more than a minute old |
| SessionStore.Sessions.GetSessionData | backend/users/services/session_service.py:20-64 | cached entry first, then the row, which is cached |
| SessionStore.Sessions.CheckTimeouts | backend/users/services/session_service.py:67-87 | deletes row and entry exactly when a limit is passed |
| SessionStore.Sessions.UpdateLastSeen | backend/users/services/session_service.py:90-122 | both throttles: the entry after more than 1 minute, the row when its last write-back is at least 5 minutes old |
| SessionStore.Sessions.Authenticate | backend/users/authentication.py:47-51 | the three in a row accept, time out or refuse as the model judges |
| SessionStore.Sessions.OldestSessions | backend/users/views/auth.py:140-144 | the n rows stored as least recently seen |
| SessionStore.Sessions.IssueLogin | backend/users/views/auth.py:138-171 | prunes exactly the model's number of oldest rows and opens the new one |
| SessionStore.Sessions.ChangeOwnPassword | backend/users/views/auth.py:537-551 | every session goes, one new one is opened |
| SessionStore.Sessions.EvictOnSecurityChange | backend/users/signals.py:25-47 | every row of the user goes, with its cache entry |
| SessionStore.Sessions.SaveAccount | backend/users/signals.py:9-36 | a saved account loses all its sessions unless it is new or the save changes nothing but other columns and activating it: so exactly when it is deactivated or its password, role or tool authorisation changes |
| SessionStore.Sessions.LogOut | backend/users/views/auth.py:905-912 | the session of the token goes, with its cache entry, and no other; the token is dead from then on (`EndedIsDead`) |
| SessionStore.Sessions.RefreshToken | backend/users/views/auth.py:961-984 | renames the session of the old token, or if that is gone a most recently seen one, and caches it under the new token; without any session nothing is renamed |
| HashChain.HeadBindsBodies | backend/history/models.py:24-32 | two valid chains with one head hash have the same length and payloads, or exhibit a collision or a payload hashing to zeros |
| HashChain.DieBodyParses | backend/history/models.py:30-30 | the colon-joined payload determines die, user, field and the joined values |
| HashChain.MachineBodyParses | backend/history/models.py:77-77 | the same for the machine payload, read from both ends |
| HashChain.JoinedFixesValuesIff | backend/history/models.py:30-30 | the joined text determines old and new value if and only if neither has a colon |
| HashChain.ColonsAreAmbiguous | backend/history/models.py:30-30 | two different changes of the remarks with one payload |
| HashChain.StampContinues | backend/history/models.py:27-31 | a record stamped with the latest hash, or zeros, continues a valid chain |
| FieldLog.ReplayGivesCurrent | backend/dies/signals.py:19-62 | over every run of saves, size saves and imports in which no import changed the field, replaying its entries from the initial value gives the current one, for every watched field but the set and whatever becomes of the sets |
| FieldLog.LogIsLinked | backend/dies/signals.py:31-62 | over every such run, each entry of a field but the set has as old value the previous entry's new value of that field, and changes it |
| FieldLog.ReplayGivesLogged | backend/dies/signals.py:19-62 | over any run, with any imports and set renames, replay of any watched field gives the text it had at the last save that logged a change of it, or at the start |
| FieldLog.ReplayIsCurrentIff | backend/dies/signals.py:19-62 | so replay gives the present text of a field if and only if that is the text last logged, or the initial one if none was |
| FieldLog.SameSetReplaysIff | backend/dies/signals.py:35-50 | for a die still in the set last logged: if and only if that set has the name it had then |
| FieldLog.LogIsLinkedIff | backend/dies/signals.py:31-62 | over any run, the entries of a field follow on each other if and only if the field, whenever a change of it was logged, still read as it was last logged |
| FieldLog.RenamedSetBreaksReplay | backend/dies/signals.py:35-50 | a concrete run in which a renamed set makes replay give the old name |
| FieldLog.ImportBreaksReplay | backend/dies/signals.py:23-24 | a concrete run in which an import changes the status, writes no entry, and replay gives the old one |
| FieldLog.EventEntry | backend/dies/signals.py:20-62 | a save leaves exactly one entry, with the texts before and after, for each watched field that reads differently; a size save and an import leave none for any |
| FieldLog.NoEntryIffUnchanged | backend/dies/signals.py:55-62 | a save adds no entry if and only if no watched field changed its text |
| FieldColumns.SaveLogsColumns | backend/dies/signals.py:19-62 | everything a save writes, in order: each column that reads differently, under its own name, with its own old and new text and the user |
| FieldColumns.SaveReportsColumns | backend/dies/signals.py:31-62 | an entry named after a column is written if and only if that column changed (the set: its name), once, with that column's two texts |
| FieldColumns.RoundSizesLogColumns | backend/dies/signals.py:65-88 | the same for a round size record |
| FieldColumns.FlatSizesLogColumns | backend/dies/signals.py:91-115 | the same for a flat size record |
| FieldColumns.ReplayGivesColumns | backend/dies/signals.py:19-62 | over every run in which no import changed the column, replaying status, rack, shelf, remarks, die id or casing gives what the die has in that column |
| FieldColumns.RowIsLastWritten | backend/dies/signals.py:19-62 | the die is as the last save or import of a run left it |
| AuditLog.HeadBindsRecords | backend/history/models.py:24-32 | for records of any colon-free field, sizes included, an equal head binds number, die, user, field and joined values of all records |
| AuditLog.HeadBindsColonFreeValues | backend/history/models.py:24-32 | and the old and new value of each record whose old value has no colon |
| AuditLog.HeadAndStartDetermineLog | backend/history/models.py:24-32 | with the initial row known, an equal head binds every entry and the current value of every watched field but the set that no import changed, colons or not, whatever becomes of the sets |
| AuditLog.HeadAndStartDetermineEntries | backend/history/models.py:24-32 | over runs with any imports and renames, the same for every field and its text last logged, when each logged change started from the text logged before it |
| AuditLog.StampedExtendsChain | backend/history/models.py:24-32 | each saved record, of whatever field, continues its die's chain and no other |
| AuditLog.StampCoversRecord | backend/history/models.py:24-32 | a record's hash covers, joined by colons, the hash of its die's latest record or 64 zeros, and its die, user, field, old and new value |
| AuditLog.AuditTrail.SaveHistory | backend/history/models.py:24-32 | appends the record stamped with its predecessor's hash |
| AuditLog.AuditTrail.LogDiff | backend/dies/signals.py:19-62 | the loop appends exactly the changed fields, in order, to this die's chain only; which columns those are is `FieldColumns.SaveLogsColumns` |
| AuditLog.AuditTrail.LogSizes | backend/dies/signals.py:65-115 | the loops over the size columns append exactly those whose texts differ, in order, to this die's chain only |
| AuditLog.AuditTrail.SaveDie | backend/dies/signals.py:19-62 | row and log of one save together; chains stay valid and other dies' logs stay as they are |
| AuditLog.AuditTrail.Perform | backend/dies/signals.py:19-115 | one save, size save or import: the row it leaves, its entries in valid chains and no other die's; an import writes the row only |
| AuditLog.AuditTrail.Serve | backend/dies/signals.py:19-115 | over any run of die saves, size saves and imports the records written are exactly the log of the run, in valid chains |
| MachineLog.HeadBindsRecords | backend/history/models.py:71-79 | an equal head binds the records of a machine, set, category or rack |
| MachineLog.StampedExtendsChain | backend/history/models.py:71-79 | each saved record continues the chain of its entity and no other |
| MachineLog.StampCoversRecord | backend/history/models.py:71-79 | the same for a machine, set, category or rack, with its kind, id and action |
| MachineLog.MachineTrail.SaveHistory | backend/history/models.py:71-79 | appends the stamped record and keeps every chain valid |
| ImportModel.ImportKeepsInv | backend/dies/services/import_service.py:151-192 | an import keeps primary keys unique and size records tied to dies |
| ImportProperties.LastRowDecidesDie | backend/dies/services/import_service.py:152-163 | after an import each die is as its last accepted row says, or as it was |
| ImportProperties.LastRowDecidesSizes | backend/dies/services/import_service.py:165-192 | so are its round and its flat sizes, each by the last accepted row of that type |
| ImportProperties.DiesNeverLeave | backend/dies/services/import_service.py:151-163 | no die disappears and none changes its primary key |
| ImportProperties.ImportIsIdempotent | backend/dies/services/import_service.py:235-266 | rows with the same outcomes imported again change no table and create nothing |
| ImportProperties.CreatedCountsNewDies | backend/dies/services/import_service.py:239-242 | the created count is exactly the growth of the die table |
| ImportProperties.DryRunPredicts | backend/dies/services/import_service.py:237-247 | a dry run counts at least as many created; as many if and only if no accepted row creates a die an earlier one created |
| ImportProperties.ChangedDiesAreSynced | backend/dies/services/import_service.py:246-275 | every die an accepted row names is among the keys handed to the outbox |
| ImportProperties.SyncedDiesExist | backend/dies/services/import_service.py:246-275 | and every such key belongs to a die |
| ImportProperties.NameResolvesToOnlyMatch | backend/dies/services/import_service.py:82-100 | a set is found by name if and only if it is the only one of that name or, a machine being given, the only one under it |
| ImportRows.AcceptedIffDescribed | backend/dies/services/import_service.py:54-192 | a row is accepted, with given values for every field, if and only if each column says so: id, type, casing, status, rack and shelf within the rack, remarks, a set by id or by a name only it bears, sizes with their older column names |
| ImportRows.BlankShelfIsRefused | backend/dies/services/import_service.py:137-141 | a row whose shelf text is blank, as in a CSV file with that column, is refused, although the template calls the column optional |
| ImportRows.ListedStatusesAreRefused | backend/dies/services/validation_service.py:27-34 | MEASURING and INACTIVE are refused, although the template lists them |
| ImportRows.WrittenShelfIsStored | backend/dies/services/import_service.py:137-145 | a shelf written in decimal is the shelf stored, and only with a rack |
| ImportReasons.ReasonIsFirstFault | backend/dies/services/import_service.py:104-193 | the reason given for a row not accepted is what is wrong with the first of: id, type, casing, status, rack, shelf, place, set, widths, sizes in order; only a fault in the sizes is found with the die row written |
| ImportReasons.ErrorsNameTheirLines | backend/dies/services/import_service.py:249-266 | the errors are, in order, the lines not accepted, each with its line number, its die id cell or N/A and its reason |
| ImportReasons.KeysAreOfAcceptedRows | backend/dies/services/import_service.py:246-275 | the keys handed on are, in order, those of the dies of the accepted rows |
| Decimals.StripTakesOuterBlanks | backend/dies/services/import_service.py:146 | stripping takes all blanks at both ends and nothing else |
| ImportService.Importer.UpdateOrCreate | backend/dies/services/import_service.py:152-163 | keeps the key of a known die, draws the next one for a new die |
| ImportService.Importer.ProcessRow | backend/dies/services/import_service.py:105-193 | all checks in the order of the code; what comes of a row depends on the row and the sets and racks read beforehand, never on the tables; a size found bad after the die row was written leaves the tables as they were |
| ImportService.Importer.ImportRow | backend/dies/services/import_service.py:236-248 | one row in its own transaction, undone in a dry run |
| ImportService.Importer.ImportLine | backend/dies/services/import_service.py:235-266 | one pass of the loop: counters, error list and synced keys |
| ImportService.FailuresAndAcceptedAreAll | backend/dies/services/import_service.py:248-266 | failures and accepted rows add up to all rows, whatever the tables hold |
| ImportService.Importer.ImportDies | backend/dies/services/import_service.py:196-286 | the loop: counters, errors, synced keys and final tables; created + updated + skipped is the number of rows; a dry run leaves the tables alone |
| ImportService.DryRunThenImport | backend/dies/services/import_service.py:244-247 | a dry run before the real one reports the same failures and accepted total, and the same split just when no new die is repeated |
| ImportService.ImportTwice | backend/dies/services/import_service.py:196-286 | importing a file twice gives the tables of importing it once; the second report has the same failures and creates nothing |
| ReferenceNumbers.ShortlexIsNumeric | backend/history/views.py:404-405 | by length, then text, is by number for generated references of any minimum width |
| ReferenceNumbers.ReadingUndoesGenerating | backend/history/views.py:409-415 | the number read from a generated reference is the one it was made from, past 9999 as well |
| ReferenceNumbers.NextIsFreshAndLast | backend/history/views.py:399-415 | when all references under a prefix were generated, the next one is unused and comes after all of them in the query's order |
| ReferenceNumbers.NextIsOnePastGreatest | backend/history/views.py:399-415 | a number is the next one if and only if it is one past the greatest in use, or 1 when there is none |
| ReferenceNumbers.NextFollowsLastDash | backend/history/views.py:409-413 | whatever the latest reference is: one more than the number after its last dash, or 1 if that is no number |
| ReferenceNumbers.FirstOfDay | backend/history/views.py:399-436 | the first references of a day are TDS-day-0001 and WO-day-001 |
| ReferenceNumbers.FirstFreeIsFree | backend/history/views.py:545-551 | the retry loop ends on a taken reference if and only if all 51 tried are taken; with generated references only it needs no retry |
| ReferenceNumbers.PrintLog.LatestUnder | backend/history/views.py:403-407 | the first row in the order by length and text, both descending |
| ReferenceNumbers.PrintLog.GenerateNextDocRef | backend/history/views.py:399-415 | one past the latest, at least four digits, unused when all were generated |
| ReferenceNumbers.PrintLog.GenerateDefaultWorkOrder | backend/history/views.py:418-436 | the same with three digits |
| ReferenceNumbers.PrintLog.FirstFreeRef | backend/history/views.py:546-551 | everything from the first candidate up to the one chosen is taken |
| ReferenceNumbers.PrintLog.ChooseRef | backend/history/views.py:541-554 | the given reference if it is free, else the first free number |
| ReferenceNumbers.PrintLog.Post | backend/history/views.py:537-575 | stores a record under an unused reference - the given one or the first free number - and a stripped or generated work order, or nothing; rejected for the reference just when all 51 are taken |
| WearAlerts.SettledIsCalledFor | backend/dies/services/wear_alert_service.py:80-117 | after a check the active alert is the level found, at most one is active, alerts change just when the level does, and no other die's moves |
| WearAlerts.RunKeepsOne | backend/dies/services/wear_alert_service.py:80-117 | over every run of saves, deletes, tolerance changes and checks a die has at most one unresolved alert |
| WearAlerts.CheckMakesCurrent | backend/dies/services/wear_alert_service.py:34-117 | a check makes the die's alert what its wear calls for, and changes alerts just when it was not |
| WearAlerts.CheckIsIdempotent | backend/dies/services/wear_alert_service.py:80-117 | a repeated check changes nothing |
| WearAlerts.AlertsFollowWear | backend/dies/signals.py:118-139 | while tolerances stay, every alert is what the wear calls for, at every moment of every run |
| WearAlerts.AlertIsOfLastCheck | backend/dies/signals.py:118-139 | over every run, tolerance changes included, a die's alert is the level its wear calls for under the tolerance in force at its last save or check; what it was before if that had no sizes or no limit; none after a delete |
| WearAlerts.CurrentIffSameLevel | backend/dies/services/wear_alert_service.py:68-78 | so an alert is current if and only if the tolerance of then and that of now put the wear on the same level |
| WearAlerts.ToleranceChangeIsHarmlessIff | backend/dies/models.py:111-114 | after a tolerance change all alerts are still current if and only if, for each die of the type with its sizes, the old and the new limits put its wear on the same level (or, with no old limit, the new one puts it on the level on file) |
| WearAlerts.ToleranceChangeGoesUnnoticed | backend/dies/models.py:111-119 | a tolerance change that leaves an alert stale |
| WearAlerts.MoreWearNeverLowersLevel | backend/dies/services/wear_alert_service.py:68-78 | more wear never calls for a lower level, whichever way round the percentages are |
| WearAlerts.LevelByLimits | backend/dies/services/wear_alert_service.py:68-78 | the level without the division: wear against the two percentages of the limit, critical before warning |
| WearLaws.RoundDieAlertIff | backend/dies/services/wear_alert_service.py:47-117 | after a check of a round die the alert is critical if and only if the size moved, either way, by the critical percentage of the limit, and there is none if and only if it moved by neither percentage; default 0.05 mm, 70, 90 |
| WearLaws.FlatDieAlertIff | backend/dies/services/wear_alert_service.py:54-117 | the same for a flat die, where either width or thickness is enough; default 0.1 mm |
| WearLaws.NothingToGoBy | backend/dies/services/wear_alert_service.py:39-66 | without the sizes of its type, or with a limit that is not positive, a check leaves all alerts alone |
| WearLaws.StepStores | backend/dies/services/wear_alert_service.py:20-30 | each step stores the row or tolerance it is given, or the default, and changes nothing else in either table |
| WearLaws.CheckKeepsFile | backend/dies/services/wear_alert_service.py:80-117 | a check deletes and rewrites no alert: it marks the active one resolved and adds at most one, of the level found |
| WearLaws.DeleteTakesOwnAlerts | backend/dies/models.py:121-135 | deleting a die deletes all its alerts and keeps every other die's |
| WearService.Workshop.GetOrCreateDefaultTolerance | backend/dies/services/wear_alert_service.py:20-30 | the stored tolerance, or the default of the die type, which is then stored |
| WearService.Workshop.CheckWearAlerts | backend/dies/services/wear_alert_service.py:34-117 | the check of one die, with its answer: true exactly when the alert was not current; what it then is follows from the sizes by `WearLaws.RoundDieAlertIff` and `FlatDieAlertIff` |
| WearService.Workshop.SettleAlert | backend/dies/services/wear_alert_service.py:80-117 | resolves and creates alerts to reach the level found |
| WearService.Workshop.CheckAllWearAlerts | backend/dies/tasks.py:81-96 | all dies but scrapped ones end with current alerts, the others keep theirs; the updated count is exactly the number of stale ones |
| WearService.Workshop.RecutRound | backend/dies/services/recut_service.py:30-60 | recut if and only if the new size is larger than the current one and fits the column, and otherwise the reason it was refused for; sizes, status, alert and log |
| WearService.Workshop.RecutFlat | backend/dies/services/recut_service.py:63-104 | recut if and only if neither side gets smaller and all three sizes fit their columns, and otherwise the reason; then width, thickness and radius each are the new ones, and status, alert and log follow |
| WearService.UnwornDieIsCleared | backend/dies/services/recut_service.py:48-53 | without wear no alert is active if and only if both percentages are positive (with no positive limit: if none was before) |
| WearService.Workshop.RecutDie | backend/dies/services/recut_service.py:12-27 | who may recut and when; otherwise nothing changes; afterwards the die is unworn, available and its alert settled |
| HistoryGrouping.GroupsAreTheirMembers | frontend/src/pages/HistoryPage.tsx:56-108 | each group is exactly its members' leader heading, first change per field and first note; every group has members |
| HistoryGrouping.EveryItemIsCovered | frontend/src/pages/HistoryPage.tsx:63-86 | every item is in a group of its user, entity and address, led by itself or by an item within 5000 ms, and its field is listed there |
| HistoryGrouping.LeaderGivesHeading | frontend/src/pages/HistoryPage.tsx:84-103 | the item that opens a group gives its user, entity, address, time, action and key, and opens no other |
| HistoryGrouping.EveryGroupIsLed | frontend/src/pages/HistoryPage.tsx:84-103 | every group was opened by an item |
| HistoryGrouping.LeadersAreApart | frontend/src/pages/HistoryPage.tsx:63-71 | two groups of one user, entity and address lead more than 5000 ms apart |
| HistoryGrouping.EarlierLeaderEarlierGroup | frontend/src/pages/HistoryPage.tsx:84-108 | groups stand in the order their leaders come |
| HistoryGrouping.KeptChangesAreFirst | frontend/src/pages/HistoryPage.tsx:74-80 | the changes kept are those of the first member with each field |
| HistoryGrouping.KeptChangesAreInOrder | frontend/src/pages/HistoryPage.tsx:74-80 | they stand in the order in which their fields first occur |
| HistoryGrouping.NoFieldTwice | frontend/src/pages/HistoryPage.tsx:74-80 | no group repeats a field, and none lists a blank one |
| HistoryGrouping.KeptNoteIsFirst | frontend/src/pages/HistoryPage.tsx:81-83 | the note kept is the first one any member has |
| HistoryGrouping.FindGroup | frontend/src/pages/HistoryPage.tsx:63-71 | the first matching group |
| HistoryGrouping.GroupHistoryItems | frontend/src/pages/HistoryPage.tsx:56-108 | the loop builds exactly those groups |
| FeaMesh.GenerateFeaMesh | wasm-drawing-engine/src/fea_mesh.rs:47-181 | the buffer holds slices x rings x segments x 7 numbers, node (i, j, k) at ((i R + j) K + k) 7; both maxima are those of all rings, floors 0 and 25 |
| FeaMesh.SliceZonesNeverDecrease | wasm-drawing-engine/src/fea_mesh.rs:88-113 | the zone never decreases from slice to slice if the mesh is not longer backwards |
| FeaMesh.MeshSpansTheDie | wasm-drawing-engine/src/fea_mesh.rs:60-68 | a bearing that is not negative suffices, and then the mesh runs from the first zone to the last |
| FeaMesh.ZoneColumnNeverDecreases | wasm-drawing-engine/src/fea_mesh.rs:162-168 | so the stored zone column never decreases along the axis |
| FeaMesh.MaximaAreStored | wasm-drawing-engine/src/fea_mesh.rs:150-155 | with at least one segment no stored value is above its maximum, and each maximum above its floor is stored |
| FeaMeshLaws.NodesLieOnTheirRing | wasm-drawing-engine/src/fea_mesh.rs:156-161 | rounding aside, a node lies on the circle of its ring |
| FeaMeshLaws.RingsAreEqualParts | wasm-drawing-engine/src/fea_mesh.rs:116-118 | the rings divide the radius of the slice into equal parts |
| FeaMeshLaws.FirstSegmentIsUpright | wasm-drawing-engine/src/fea_mesh.rs:156-161 | the first segment lies along the y axis |
| FeaMeshLaws.ProfileIsBetween | wasm-drawing-engine/src/fea_mesh.rs:88-113 | a die that narrows the wire has the incoming radius before the bell, the outgoing one in the bearing and after the relief, and one between them elsewhere but in the bell |
| FeaMeshLaws.BellAndConeDoNotMeet | wasm-drawing-engine/src/fea_mesh.rs:90-100 | radius and strain jump where the cone begins: below the incoming radius and strained just before it, the incoming radius and no strain at it |
| FeaMeshLaws.StrainIsReached | wasm-drawing-engine/src/fea_mesh.rs:95-113 | no strain before the bell, at most the full one in the cone, the full one from the bearing on |
| FeaMeshLaws.SurfaceIsHottest | wasm-drawing-engine/src/fea_mesh.rs:140-148 | a slice never gets colder towards the surface, where friction adds 35 degrees per 0.06 in cone and bearing and 10 elsewhere |
| FeaMeshLaws.StressIsOfDifferences | wasm-drawing-engine/src/fea_mesh.rs:132-138 | the equivalent stress does not change under a pressure from all sides; pull alone counts as itself, shear three times its square |
| FeaMeshLaws.StressesByDepth | wasm-drawing-engine/src/fea_mesh.rs:119-131 | the four stresses at the surface, at the axis and in between |
| FeaMeshLaws.StoredStressIsEquivalent | wasm-drawing-engine/src/fea_mesh.rs:132-138 | the stress stored for a node is the equivalent of those four |
| Traceparent.RoundTrip | frontend/src/utils/tracing.ts:43-69 | a written header is read back unchanged if and only if its trace id is 32 lower-case hexadecimal digits, not all zero |
| Traceparent.OnlyWellFormedIsRead | frontend/src/utils/tracing.ts:55-68 | a header is read, and as given ids and flag, if and only if it says so, letters lowered: version 00, both ids, any two hexadecimal digits, sampled by the lowest bit |
| Traceparent.CreateTraceparent | frontend/src/utils/tracing.ts:43-53 | the ids and flag chosen, and when the header can be read back |

## Left out

Outbox and search index:

- Interleaving of two workers inside one batch: a batch is one atomic step. A stale read could otherwise be uploaded after a newer one.
- The search engine's own queue: an accepted upload counts as applied, a failed one as applied in any part.
- Retries that are given up, Redis and broker errors outside the fallback, and commits rolled back midway through a request before a later save of the same die.
- Deleting a set: its dies are first saved without it, which is a transaction of saves here; the row of the set itself then stays in the model.
- Rack renames, which are not resynced: a rack's name is part of the die's row here.
- Progress of a rebuild in the middle of it: the swap is one atomic step.
- Event broadcasts after a batch and progress reports of the batch and rebuild tasks.
- `OutboxTask.save` filling in a missing digest: rows are created with theirs here.
- Delete rows with a valid digest for a die that still exists, written from outside the service.

Event hub and cache:

- Channels of capacity 0, which hand over only to a waiting reader.
- Expiry times: entries vanish by an arbitrary step. Loss of the shared counter and Redis errors on increment.
- The connection handling of the listener and the HTTP handlers around the hub, apart from the order of registration and backfill.

Sessions:

- JWT validity, CSRF checks, the activity log and the eviction notice a replaced client is shown.
- The separate token-verification cache of the Go service.
- Failed database writes, which the code swallows.

Audit log:

- SHA-256 itself: any function with colon-free digests; results hold up to an exhibited collision or a payload that hashes to zeros.
- Records changed or removed from outside `save`.
- Replay of the size fields, which are compared as texts of differing scale: their records are chained and bound like all others, but taken as the texts they are.

Import:

- Reading CSV and XLSX files: rows are given as texts by column, an empty spreadsheet cell as a missing column. Cells that are not text, letter case beyond ASCII and decimals that are not numbers are not modelled.
- The field name derived from an error message, the progress callback and the import log.
- The number a sequence skips when the database itself refuses a row.

Reference numbers:

- Text is ordered by character code, not by a database collation; `int` is modelled for ASCII digits.
- Two posts at once: the unique column then rejects one of them.

Wear alerts and recut:

- Rounding: sizes and limits are reals, kept within the range of their columns by a recut but not rounded to three decimals. The cached copy of a tolerance is taken as current, so a check that reads it between the eviction and the save is not modelled.
- Two checks of one die at once, and the messages of alerts.

Mesh and tracing:

- Rounding is a parameter; roots, powers, angles, drawing stress and material constants are parameters too. `physics.rs` and `materials.rs` are straight-line formulas and not part of this model.
- Drawing random ids: the ids drawn are parameters.

Left out as easy or as plumbing: the optimistic version check and the recount submit (both look
before they lock, so only their sequential claims would hold), list and filter views, serializers,
permissions, migrations, the service worker, the installer and the React components.
