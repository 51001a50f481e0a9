# Decision Stack: sync, rules and delivery

Dafny models, with proofs, of the stateful parts of an e-mail triage system: an offline-first client that
syncs decision cards with a server, and a classification service that routes ingested e-mails. Each part
that updates state in place is a class or a loop proved against a specification over values; each part that
runs concurrently is a state machine over the steps between its awaits, locks or remote commands, and its
properties hold for every interleaving.

- **Client sync** (`KeyedMerge`, `Crdt`, `CrdtLaws`, `Drafts`, `SyncQueue`, `SyncProtocol`, `SyncEngine`,
  `DecisionRuns`):
  the card and draft merges over JavaScript's insertion-ordered maps, the operation queue, one sync cycle
  over the local tables with arbitrary server replies, uploads in flight cut at their awaits, and the fate
  of a decision over whole runs.
- **Client queue and streak** (`CardStore`, `Streak`): the in-memory card queue and the daily streak as
  folds over their histories.
- **Rule predicates** (`RegexCache`, `Predicate`): the LRU cache of compiled patterns cut at its lock
  boundaries, and the two predicate evaluators compared.
- **Delivery** (`CircuitBreaker`, `Consumer`): the breaker with many calls in flight against a trace
  specification, the nested retries, acknowledgements and the dead-letter queue.
- **Rules** (`RuleTable`, `RuleCache`, `RuleLifecycle`): the rule table with its constraints, the cache in
  front of it, and crons, users and revocations racing through conditional updates.
- **Rate limits** (`RateLimit`): the Redis counters with INCR, EXPIRE and DECR as separate commands.
- **Routing** (`AutoEngine`, `Router`): the rule engine with its language-model fallback, and the three-stage
  router.

`Collections` holds the shared vocabulary. `dafny verify dfyconfig.toml` verifies the whole project.

## Where the code and its comments disagree

The models follow the code.

- `client/src/services/sync.ts:10` calls a repeated sync a no-op. A second download of the same cards changes
  a card exactly when the user's state stood against it in the first (`SecondDownloadFixedIff`), and an upload
  response overwrites an unsynced decision exactly when it names the card (`AnswerKeepsDecisionIff`), which is
  then never queued (`DecisionQueuedIff`).
- `client/src/services/crdt.ts` calls the merges idempotent. The card merge is, on every local table, exactly
  when the server repeats no id (`MergeIsFixedIffServerIdsDistinct`); the draft merge hands newer local
  metadata back on the second round (`DraftRemergeFixedIff`).
- `client/src/services/syncQueue.ts:10` caps retries at 5; an item stays pending with any number of them
  (`RetriesAreUncapped`).
- `client/src/services/db.ts:631` speaks of 48 hours since the last decision; the code compares the starts of
  local days, so the two differ exactly two days later at a later time of day (`ResetDiffersFromElapsedIff`).
- `classification/internal/nats/publisher.go:39-41` speaks of the number of trial calls allowed while half-open;
  the code admits every call then and counts successes (`NotOpenAdmits`).
- `classification/internal/auto/engine.go:59` says a confident language-model match is staged. The match always
  names a loaded active rule, whose action is executed at once; creating or staging a rule is unreachable
  (`Engine.Evaluate`).
- `classification/internal/auto/predicate.go` and `classification/internal/models/models.go` evaluate the same
  conditions differently; `ConditionsAgreeIff` says exactly when they agree.
- A fixed window admits its limit per lifetime of the key, but up to `2 * limit - 1` requests within one window
  (`FewerThanTwiceLimit`, `BoundIsTight`). The expiry of a connection key breaks the connection limit exactly
  when connections are held or rejections under way (`ExpiryHarmlessIff`).
- A cached rule list can outlive its invalidation: `EntryRightIff` and `SetHarmfulIff` say exactly when.
- `classification/migrations/001_initial_schema.up.sql:11-28` declares neither `updated_at` nor `last_used_at`, which
  the statements of `classification/internal/auto/store.go`, the activator and the revoker write. The models assume
  these columns and keep no value for them.

## Model

| member | source | states |
|---|---|---|
| `KeyedMerge.MergedIdsAreTheUnion` | client/src/services/crdt.ts:148-231 | an id is in the merged list exactly when the server or the local side has it |
| `KeyedMerge.MergedIdsDistinctIff` | client/src/services/crdt.ts:148-231 | the merged list repeats no id if and only if the server list repeats none; repeated local ids do no harm |
| `KeyedMerge.MergedIds` | client/src/services/crdt.ts:148-231 | the output lists the server ids in server order, then the local ids the server lacks in first-insertion order |
| `KeyedMerge.MergedIndexIsJoin` | client/src/services/crdt.ts:148-231 | looked up by id, the output is the pointwise join of the two sides |
| `KeyedMerge.MergedIsJoin` | client/src/services/crdt.ts:148-231 | each output row is the join of the two sides at its own id |
| `KeyedMerge.MergeIgnoresOrder` | client/src/services/crdt.ts:148-231 | permuting either input only permutes the output |
| `Crdt.MergePair` | client/src/services/crdt.ts:157-216 | content from the server; state and time of decision are the user's exactly when an unsynced decision stands and the server has not finished (sent, archived, expired) what the user has not; the later of each time, the server's on a tie; one conflict with both states and the side that won, and one upload, per unsynced decision |
| `Crdt.MergeServerSide` | client/src/services/crdt.ts:148-218 | the server loop leaves exactly the unmet local cards in the map and the joined cards, uploads and conflicts so far |
| `Crdt.MergeRemaining` | client/src/services/crdt.ts:221-231 | the second loop appends the remaining local cards and uploads their unsynced decisions |
| `Crdt.MergeCards` | client/src/services/crdt.ts:135-234 | the two loops over the insertion-ordered map compute the specification for every input, repeated ids included; the laws below say what that is |
| `CrdtLaws.MergedReconciles` | client/src/services/crdt.ts:135-234 | the i-th merged card is the i-th server card, reconciled in state and times with the local card of its id where the server list first names it |
| `CrdtLaws.MergedReconciledAt` | client/src/services/crdt.ts:135-234 | looked up by id: the server's card, the local one, or the two reconciled, told on the fields of the cards |
| `CrdtLaws.ConflictsAreTheDecisions` | client/src/services/crdt.ts:165-188 | exactly one conflict is logged for each unsynced decision the server list meets, with both states; the server wins it exactly when its state is sent, archived or expired and the user's is not |
| `CrdtLaws.JoinIdempotent` | client/src/services/crdt.ts:107-115 | joining a joined card with the same server card again changes nothing, also when both states are terminal |
| `CrdtLaws.MergeIsFixedOnDistinct` | client/src/services/crdt.ts:135-234 | merging the output, with dirty flags and decisions kept, against the same server list gives the same sequence of cards |
| `CrdtLaws.RepeatedIdBreaksMerge` | client/src/services/crdt.ts:148-154 | for any server list with a repeated id there is a concrete local card on which the merge is no fixed point |
| `CrdtLaws.MergeIsFixedIffServerIdsDistinct` | client/src/services/crdt.ts:135-234 | the merge is a fixed point for every local table if and only if the server list repeats no id |
| `CrdtLaws.MergeTakesNewest` | client/src/services/crdt.ts:197-214 | one merge keeps for each id the later updated_at and the later suggested_deadline of the two sides |
| `CrdtLaws.RunTimesAreMaxima` | client/src/services/crdt.ts:76-84 | over any run of server snapshots both times of a card are the maxima of all values merged for it |
| `CrdtLaws.UploadsAreTheDecisions` | client/src/services/crdt.ts:165-195 | the uploads hold exactly one change for each unsynced decision, with its version, state and text, whichever side won the state |
| `Crdt.BuildLocalChangePayload` | client/src/services/crdt.ts:309-339 | told on the fields of the payloads: each card some item asks about is sent exactly once, as the earliest item of its highest version asks; missing version and state are 1 and pending; cards come in first-occurrence order |
| `Crdt.ChangeIsAsked` | client/src/services/crdt.ts:312-325 | an item yields a change exactly when it names a non-empty card id, card_id before cardId, and then that change, field by field |
| `Crdt.PayloadCovers` | client/src/services/crdt.ts:309-339 | every queued change is represented by a change for its card of the same or a higher version |
| `Drafts.MergeDraftPair` | client/src/services/crdt.ts:263-288 | body, ids and token counts are the server's; approved once either side approved, with the sending time of the side that did; each metadata field is the newer local draft's if it has one; one conflict and one upload exactly when the server lacks the approval |
| `Drafts.MergeDrafts` | client/src/services/crdt.ts:244-303 | the draft loops compute the specification for every input; the laws below say what that is |
| `Drafts.MergedDraftReconciles` | client/src/services/crdt.ts:254-291 | the i-th merged draft is the i-th server draft, reconciled with the local draft of its id where the server list first names it |
| `Drafts.MergedDraftAt` | client/src/services/crdt.ts:244-303 | looked up by id: the server's draft, the local one, or the two reconciled, told on their fields |
| `Drafts.ApprovalConflictIff` | client/src/services/crdt.ts:268-279 | a conflict is logged exactly for each approval the server lacks, under the draft's card, and the local side wins it; as many as uploads |
| `Drafts.MergeKeepsApprovals` | client/src/services/crdt.ts:268-279 | after one merge a draft is approved exactly when one of the sides had it approved |
| `Drafts.RunApprovalIsDisjunction` | client/src/services/crdt.ts:244-303 | over any run a draft's approval is the disjunction of every approval merged for it |
| `Drafts.DraftUploadedIff` | client/src/services/crdt.ts:268-300 | a local draft is uploaded exactly when the server lacks its approval, or lacks the draft and it is approved or edited |
| `Drafts.DraftRemergeFixedIff` | client/src/services/crdt.ts:282-288 | a second merge with the same server draft changes nothing unless the local draft was newer with metadata of its own; body, approval and sent_at never change again |
| `SyncQueues.SyncQueue.Enqueue` | client/src/services/syncQueue.ts:71-82 | a new pending row without retries is appended; a repeated key fails and changes nothing |
| `SyncQueues.SyncQueue.GetPending` | client/src/services/syncQueue.ts:85-107 | exactly the rows without completed_at, oldest first |
| `SyncQueues.SyncQueue.CompleteBatch` | client/src/services/syncQueue.ts:128-138 | exactly the rows of the given ids get a completion time |
| `SyncQueues.SyncQueue.IncrementRetry` | client/src/services/syncQueue.ts:141-147 | exactly the row of the id gets one more retry |
| `SyncQueues.SyncQueue.Cleanup` | client/src/services/syncQueue.ts:155-162 | exactly the rows completed before the cutoff go; the pending items stay, in order |
| `SyncProtocol.CompletedOnlyWhenAcked` | client/src/services/sync.ts:111-159 | under every interleaving of enqueues, uploads, failures, retries and clean-ups a completed row was in the snapshot of an upload that carried its card at its version or above and whose response accepted that card |
| `SyncProtocol.NothingLost` | client/src/services/syncQueue.ts:155-162 | an item once enqueued is pending or has been acknowledged: no step loses it |
| `SyncProtocol.AckedAfterEnqueue` | client/src/services/sync.ts:117-159 | the upload that acknowledges an item took its snapshot after the item was enqueued |
| `SyncProtocol.LateItemStaysPending` | client/src/services/sync.ts:117-159 | an item in no snapshot taken after its enqueue is still pending, whatever earlier uploads were answered |
| `SyncProtocol.ResponseIsEvidence` | client/src/services/sync.ts:150-159 | each id a response completes satisfies the acknowledgement condition |
| `SyncProtocol.ResponseCompletes` | client/src/services/sync.ts:150-159 | a response completes exactly the rows its upload had taken whose card it accepts, whatever was queued, retried or answered since |
| `SyncProtocol.OtherStepsOnRows` | client/src/services/syncQueue.ts:71-162 | what every other step does to the rows: append, one more retry, sweep, nothing |
| `SyncProtocol.PendingRowStep` | client/src/services/syncQueue.ts:119-162 | a pending row stays pending through any step but a response that accepts its card |
| `SyncEngines.AnswerKeepsDecisionIff` | client/src/services/sync.ts:180-182 | an upload response leaves an unsynced decision in the card table if and only if it names the card in none of its three lists |
| `SyncEngines.AnsweredRow` | client/src/services/sync.ts:180-182 | the row of any id after an upload response, told from its three lists: inserted with version 0, overwritten by the last server card in all but id, creation time, version, decision and time of modification, removed, or unchanged |
| `SyncEngines.CompletionIsExact` | client/src/services/sync.ts:150-159 | the batch completion completes exactly the pending rows whose card was accepted |
| `SyncEngines.BumpsAreExact` | client/src/services/sync.ts:161-170 | each row gets one retry for every rejection of a card whose first pending item it is, and nothing else changes |
| `SyncEngines.QueuedChangeReadsBack` | client/src/services/crdt.ts:312-325 | a change that was enqueued is read back from its payload as it was, unless its card id is empty |
| `SyncEngines.UploadsAreQueued` | client/src/services/sync.ts:225-228 | the rows a download appends, read back, ask for a card exactly when the table held an unsynced decision on it: once, with its version, state and text |
| `SyncEngines.SecondDownloadFixedIff` | client/src/services/sync.ts:219-228 | a second download of the same server cards changes nothing if and only if no decision of the user stood against them in the first |
| `SyncEngines.SecondDownloadReverts` | client/src/services/sync.ts:440-462 | a concrete card whose approval the second download takes back |
| `SyncEngines.RetriesAreUncapped` | client/src/services/syncQueue.ts:141-147 | for every n there are uploads that leave an item pending with n retries more |
| `SyncEngines.SyncEngine.GetLocalCards` | client/src/services/sync.ts:332-383 | every row of the card table once |
| `SyncEngines.SyncEngine.ApplyServerCards` | client/src/services/sync.ts:385-431 | for the row of every id: inserted or replaced by the last card of that id with version 0, or, if it is there, overwritten in all but id, creation time, version, decision and time of modification; every other row stays |
| `SyncEngines.SyncEngine.UploadChanges` | client/src/services/sync.ts:111-191 | the request, the rows completed and the retries counted, the cursor, the counts and the row of every card after an upload with any response, told without the functions that compute them; what a failed request leaves alone |
| `SyncEngines.SyncEngine.DownloadUpdates` | client/src/services/sync.ts:197-239 | after a completed download the appended queue rows, read back as changes, hold exactly one change for each unsynced decision, with the old row's version, state and text; every card is the two sides reconciled, clean and without a decision; conflicts are logged for the decisions met |
| `SyncEngines.SyncEngine.Sync` | client/src/services/sync.ts:245-285 | a failed upload keeps the download from running; an error exactly when no download completed; each counter of the report from the two parts; no card dirty after a completed cycle; the cursor and one history row |
| `DecisionRuns.WaitsOrGone` | client/src/services/sync.ts:180-182 | between an edit and the next download the row waits unchanged unless a response names the card; then its decision is gone |
| `DecisionRuns.DecisionQueuedIff` | client/src/services/sync.ts:197-228 | over every run of edits, upload responses and downloads, the first download after a decision adds it to what has been queued, once and with its version, state and text, if and only if no upload response named its card in between; else it adds nothing for the card |
| `DecisionRuns.StaysClean` | client/src/services/sync.ts:440-462 | after a download a card holds no decision until it is edited again |
| `DecisionRuns.QueuedOnce` | client/src/services/sync.ts:225-228 | after a download a card is queued again only after another edit of it |
| `CardStores.MergeBatch` | client/src/stores/cardStore.ts:64-75 | the find-replace-push loop computes the specification |
| `CardStores.TextLessIff` | client/src/stores/cardStore.ts:69 | the text order compares at the first difference, a proper prefix being less |
| `CardStores.PutAllNewest` | client/src/stores/cardStore.ts:64-75 | for each id the merge keeps a card whose updated_at is not before that of any card seen with the id |
| `CardStores.LoadedIsNewestUnion` | client/src/stores/cardStore.ts:62-83 | the queue after a batch repeats no id, is sorted by urgency, covers both sides and holds a newest card per id |
| `CardStores.LoadIsIdempotent` | client/src/stores/cardStore.ts:62-83 | loading the same batch again changes nothing, order included |
| `CardStores.SkipsRotate` | client/src/stores/cardStore.ts:90-104 | n skips rotate the cards from the current one on by n and halve the urgency of those that went by |
| `CardStores.FullRotation` | client/src/stores/cardStore.ts:90-104 | as many skips as cards are left restore the id order with every urgency halved |
| `CardStores.CardStore.LoadBatch` | client/src/stores/cardStore.ts:62-83 | the store after loading a batch; the current index stays |
| `Collections.SortDescIsStable` | client/src/stores/cardStore.ts:76-77 | the sort never reorders cards of equal urgency |
| `CardStores.CardStore.NextCard` | client/src/stores/cardStore.ts:85-88 | one step forward, never past the end |
| `CardStores.CardStore.SkipCard` | client/src/stores/cardStore.ts:90-104 | the current card goes to the end with half its urgency, the others keep their order; nothing happens past the end |
| `CardStores.CardStore.RemoveCard` | client/src/stores/cardStore.ts:131-149 | only the card with the id goes; another current card stays current, removing the current one makes the card before it current, and the index in every case |
| `Streaks.CurrentIsStreak` | client/src/services/db.ts:634-691 | for days that do not go backwards the current streak is the number of distinct days in the longest suffix since the last reset with gaps of at most two days |
| `Streaks.StreakIsUnique` | client/src/services/db.ts:634-691 | that number is determined by the days |
| `Streaks.LongestIsMaximum` | client/src/services/db.ts:652-678 | the longest streak is the maximum of all current streaks so far, resets included, for days in any order |
| `Streaks.RecordKeepsStreakIff` | client/src/services/db.ts:667-677 | before a decision is recorded, for days in any order: the updated count is the streak of the longer list if and only if the day starts a new run, or it is later than the last one exactly when the run does not have it yet |
| `Streaks.CurrentCountsAscents` | client/src/services/db.ts:667-677 | for days in any order the current streak is one more than the steps to a later day in the run |
| `Streaks.CurrentIsStreakIff` | client/src/services/db.ts:667-677 | so it is the number of distinct days of the run if and only if the run goes to a later day as often as it meets a new one |
| `Streaks.BackwardsClockCountsTooFew` | client/src/services/db.ts:672-677 | a run of two days out of order that is not counted right: one instead of two |
| `Streaks.BackwardsClockCountsTooMany` | client/src/services/db.ts:672-677 | a run of two days that is not counted right: three instead of two |
| `Streaks.ResetDiffersFromElapsedIff` | client/src/services/db.ts:659-671 | whether more than 48 hours have passed and whether the streak is reset differ exactly when the second decision is two days later and later in its day |
| `Streaks.TwoDaysLaterContinues` | client/src/services/db.ts:672-675 | in that case the streak goes on |
| `Streaks.StreakTracking.RecordDecisionDay` | client/src/services/db.ts:634-691 | the row after recording is the fold over all events |
| `Streaks.StreakTracking.GetStreakData` | client/src/services/db.ts:601-625 | the stored row, created with zeros when missing |
| `Streaks.StreakTracking.ResetStreak` | client/src/services/db.ts:696-702 | the current streak is zero and the last date cleared, the longest streak stays; nothing without a row |
| `RegexCaches.InsertCoherent` | classification/internal/auto/predicate.go:175-206 | double check, eviction and insert keep map and list in agreement and within capacity |
| `RegexCaches.StepKeepsInv` | classification/internal/auto/predicate.go:156-206 | every step between two lock operations keeps the agreement |
| `RegexCaches.AlwaysCoherent` | classification/internal/auto/predicate.go:156-206 | under every interleaving of calls map and list hold the same patterns once each, within capacity, and every finished call returned what compiling its pattern afresh gives, also after an eviction between lookup and move |
| `RegexCaches.AloneIsOneLookup` | classification/internal/auto/predicate.go:156-206 | the steps of one call run together are one lookup: a hit moves its pattern to the front, a miss inserts it, a pattern that does not compile changes nothing, and each returns the pattern's own compilation |
| `RegexCaches.RecentOrder` | classification/internal/auto/predicate.go:161-172 | the reference order lists patterns by last use, latest first |
| `RegexCaches.InsertIsLruStep` | classification/internal/auto/predicate.go:175-206 | one lookup, hit or miss, is an LRU step on the list |
| `RegexCaches.LruStepIsRecent` | classification/internal/auto/predicate.go:190-203 | LRU steps keep exactly the most recently used patterns of the whole trace |
| `RegexCaches.TracksIff` | classification/internal/auto/predicate.go:161-203 | a list in the order of last use that misses only what it has outlived is the recently used front of the whole trace |
| `RegexCaches.LookupKeepsInv` | classification/internal/auto/predicate.go:156-206 | a lookup, hit or miss, keeps map and list in agreement and the list in the order of last use |
| `RegexCaches.EvictsLeastRecentlyUsed` | classification/internal/auto/predicate.go:190-197 | what the cache evicts is gone, and was last used before everything it keeps |
| `Predicates.ConditionsAgreeIff` | classification/internal/models/models.go:149-193 | verdict and error status of the two evaluators coincide on a condition if and only if it satisfies a test on field, operator and values: for lists, whether equality up to case and equality find the same |
| `Predicates.AutoConditionMeans` | classification/internal/auto/predicate.go:82-155 | the caching evaluator's verdict on a condition, told from the attribute its field names and not otherwise: time_of_day gt n is whether the e-mail's hour is above n, eq on a text field is equality up to case with that field, and so for all nine fields, an unknown one and every operator and value |
| `Predicates.ModelsConditionMeans` | classification/internal/models/models.go:149-230 | the same for the plain evaluator |
| `Predicates.AutoMeaningIff` | classification/internal/auto/predicate.go:48-79 | a predicate means what the meanings of its conditions decide, and nothing else |
| `Predicates.DocumentedIsCommon` | classification/internal/auto/predicate.go:82-110 | the documented fragment (known field; eq, ne; text contains, regex; integer gt, lt against integral numbers) satisfies that test |
| `Predicates.EvaluatorsAgree` | classification/internal/models/models.go:121-147 | on predicates of such conditions the two evaluators return the same result |
| `Predicates.DecidesUniquely` | classification/internal/auto/predicate.go:48-79 | the meaning of a predicate determines verdict and error status |
| `Predicates.MatchIff` | classification/internal/auto/predicate.go:48-79 | a match: every allOf condition matches, and anyOf is empty or has a matching condition behind failing ones only |
| `Predicates.ErrorIff` | classification/internal/auto/predicate.go:48-79 | an error: a condition errs behind matching ones in allOf, or behind failing ones in anyOf when all of allOf match |
| `Predicates.AlwaysDecided` | classification/internal/auto/predicate.go:48-79 | one of the three results is always decided |
| `Predicates.ModelsEvaluate` | classification/internal/models/models.go:121-147 | the plain evaluator computes the meaning of the predicate by its reading of the conditions |
| `Predicates.PredicateEvaluator.GetCompiledRegex` | classification/internal/auto/predicate.go:156-206 | from any cache state the answer is the pattern's own compilation or its error, and a success makes it the most recently used |
| `Predicates.PredicateEvaluator.InsertCompiled` | classification/internal/auto/predicate.go:182-205 | the critical section of the slow path: double check, evict, push |
| `Predicates.PredicateEvaluator.Scan` | classification/internal/auto/predicate.go:50-73 | one condition loop of the caching evaluator: it runs through or stops at the first deciding verdict |
| `Predicates.PredicateEvaluator.EvalCondition` | classification/internal/auto/predicate.go:82-155 | from any cache state the verdict is what the condition means |
| `Predicates.ModelsScan` | classification/internal/models/models.go:122-145 | one condition loop of the plain evaluator |
| `Predicates.PredicateEvaluator.Evaluate` | classification/internal/auto/predicate.go:48-79 | from any cache state the caching evaluator computes the meaning of the predicate, with every condition told from the attribute it names |
| `Predicates.PredicateEvaluator.ResetCache` | classification/internal/auto/predicate.go:325-332 | an empty cache and zero counters |
| `CircuitBreakers.OpenAdmitsIff` | classification/internal/nats/publisher.go:84-101 | while open a call gets through if and only if every failed completion so far, those of calls in flight at the opening included, is timeout or longer ago |
| `CircuitBreakers.NotOpenAdmits` | classification/internal/nats/publisher.go:84-101 | in the closed and half-open phases every call gets through |
| `CircuitBreakers.PhaseWasEntered` | classification/internal/nats/publisher.go:103-136 | every phase was entered by its own events: threshold failures in a row or a failed trial to open, a call after the cool-down to probe, exactly halfOpenMax successes without a failure to close |
| `CircuitBreakers.HalfOpenMeans` | classification/internal/nats/publisher.go:121-130 | half-open: every completion since is a success and there are fewer than halfOpenMax |
| `CircuitBreakers.ClosedMeans` | classification/internal/nats/publisher.go:108-119 | closed: at no time since were the last threshold completions all failures |
| `CircuitBreakers.ReclosesOnlyByRecovery` | classification/internal/nats/publisher.go:84-137 | an open breaker closes again only through a call after the cool-down followed by exactly halfOpenMax successes and no failure |
| `CircuitBreakers.FailureRefines` | classification/internal/nats/publisher.go:108-120 | the counter update of a failed completion is the step of the trace specification |
| `CircuitBreakers.SuccessRefines` | classification/internal/nats/publisher.go:123-136 | the counter update of a successful completion is the step of the trace specification |
| `CircuitBreakers.BeginRefines` | classification/internal/nats/publisher.go:84-101 | the counter update of a beginning call is the step of the trace specification |
| `CircuitBreakers.CircuitBreaker.Begin` | classification/internal/nats/publisher.go:84-101 | a call is refused exactly while open and cooling down; the fields represent the longer trace |
| `CircuitBreakers.CircuitBreaker.End` | classification/internal/nats/publisher.go:103-137 | the fields represent the trace with the completion |
| `Consumers.PublishWithRetry` | classification/internal/nats/publisher.go:251-281 | one call to the subject per answer and a pause before each but the first, of 100 ms doubled each time and at most 5 s; it stops at the first success and gives up after maxRetries |
| `Consumers.Publisher.PublishResult` | classification/internal/nats/publisher.go:186-246 | no publish call for a missing result, for one that cannot be encoded and exactly when the breaker refuses; else every call goes to the auto subject exactly for an auto result, to the extracted subject exactly for an extracted one and to the intelligence subject otherwise, and the breaker is told the outcome |
| `Consumers.RetryPausesClosedForm` | classification/internal/nats/publisher.go:254-265 | the pauses of n calls add up to 100 * (2^(n-1) - 1) ms for n <= 7 and to 6300 + 5000 * (n - 7) ms beyond |
| `Consumers.DeliveryPublishes` | classification/internal/nats/publisher.go:192-203 | whatever a delivery publishes goes to the subject of a route one of its attempts found |
| `Consumers.DeliveryClassifies` | classification/internal/nats/consumer.go:235-262 | a delivery classifies once per attempt, with the outcomes of the attempts in order |
| `Consumers.Consumer.ProcessMessage` | classification/internal/nats/consumer.go:212-286 | the effects of a delivery are those of a possible run: it stops at the first success, refuses with a delay after maxAttempts, reports cancellation |
| `Consumers.Consumer.HandleDelivery` | classification/internal/nats/consumer.go:197-208 | a failed delivery goes to the DLQ exactly from the maxDeliver-th on and is acknowledged only if that publish succeeded |
| `Consumers.DeliveryIsBounded` | classification/internal/nats/consumer.go:235-285 | a delivery makes at most maxAttempts * maxRetries publish calls and sleeps no longer than the stated sum |
| `Consumers.BackoffsClosedForm` | classification/internal/nats/consumer.go:237 | the doubled pauses add up to backoff * (2^(n-1) - 1) |
| `Consumers.AckFollowsPublish` | classification/internal/nats/consumer.go:250-285 | a well-formed message is acknowledged exactly when the last attempt succeeded, right after a successful publish: of an auto result to the auto subject, of an extracted one to the extracted subject, of any other to the intelligence subject |
| `Consumers.AckedIsSafe` | classification/internal/nats/consumer.go:197-297 | over any run of deliveries an acknowledged well-formed message was published or put into the DLQ |
| `Consumers.DlqIff` | classification/internal/nats/consumer.go:197-208 | a delivery puts the message into the DLQ exactly when it failed at or beyond the maxDeliver-th, with the outcome the DLQ gave |
| `Consumers.DeliveryAnswered` | classification/internal/nats/consumer.go:197-297 | the answer the server takes, the first Ack or Nak: an Ack for a published or malformed message, the Nak after exhaustion even when the message then goes to the DLQ, after a cancellation an Ack only by way of the DLQ |
| `Consumers.LastDeliverySettles` | classification/internal/nats/consumer.go:200-206 | an Ack the server takes means the message was handed over; from the maxDeliver-th delivery on it is handed over or the DLQ publish failed |
| `Consumers.MalformedIsDropped` | classification/internal/nats/consumer.go:215-220 | a malformed message is acknowledged at once without a publish; it reaches the DLQ only at the delivery limit |
| `RuleTables.RuleStore.Create` | classification/internal/auto/store.go:96-140 | the row inserted, field by field with its defaults, and exactly when it is inserted: no constraint is violated, the key is new and the user exists |
| `RuleTables.RuleStore.Update` | classification/internal/auto/store.go:203-235 | name, predicate, action and threshold of the row change and nothing else; a missing rule or a violated constraint changes nothing |
| `RuleTables.RuleStore.UpdateStatus` | classification/internal/auto/store.go:238-278 | the status is the new one, its time stamp is now and the two others are cleared; invalid statuses and missing rules are errors |
| `RuleTables.RuleStore.Delete` | classification/internal/auto/store.go:281-300 | the row goes; a missing rule is an error |
| `RuleTables.RuleStore.IncrementUsage` | classification/internal/auto/store.go:303-309 | one use more, and no error when the rule is missing |
| `RuleTables.StorableIff` | classification/migrations/001_initial_schema.up.sql:8-55 | a row can be stored exactly when it violates none of the six constraints |
| `RuleTables.AnswerMeans` | classification/internal/auto/store.go:43-50 | an answer of the query: the user's active rows, each once, the most used first and the youngest first among equally used ones |
| `RuleTables.AnswerExists` | classification/internal/auto/store.go:43-50 | the ordered query over active rows has an answer for every table |
| `RuleCaches.RuleCache.Get` | classification/internal/auto/loader.go:39-59 | an entry is served until it expires; an expired one is removed |
| `RuleCaches.RuleCache.Set` | classification/internal/auto/loader.go:62-70 | the entry of the user expires one TTL later |
| `RuleCaches.RuleCache.InvalidateUser` | classification/internal/auto/loader.go:73-81 | only the entry of the user goes |
| `RuleCaches.CachedStore.GetActiveRules` | classification/internal/auto/loader.go:111-127 | what is returned, from the cache or not, is an answer of the ordered query over the current rows; an error exactly when the query fails and the cache has no live list |
| `RuleCaches.CachedStore.IncrementUsage` | classification/internal/auto/loader.go:131-146 | the row change of the table; every cached list stays an answer |
| `RuleCaches.CachedStore.Create` | classification/internal/auto/loader.go:149-155 | the row change of the table; every cached list stays an answer |
| `RuleCaches.CachedStore.Update` | classification/internal/auto/loader.go:168-174 | the row change of the table and the invalidation of the user the caller names |
| `RuleCaches.CachedStore.UpdateStatus` | classification/internal/auto/loader.go:177-190 | the row change of the table; every cached list stays an answer |
| `RuleCaches.CachedStore.Delete` | classification/internal/auto/loader.go:193-206 | the row change of the table; every cached list stays an answer |
| `RuleCaches.InvalidationKeepsCoherent` | classification/internal/auto/loader.go:73-81 | a write that touches the active rules of one user needs the invalidation of that user only |
| `RuleCaches.UpdateKeepsCachesIff` | classification/internal/auto/loader.go:168-174 | an update keeps every cache right if and only if the caller names the owner, or the rule is not active, or nothing changes |
| `RuleCaches.HitIsRecentSnapshot` | classification/internal/auto/loader.go:111-127 | with writers that bypass the cache and a split miss, a hit serves the answer over the database as it was no longer ago than TTL plus load latency |
| `RuleCaches.StepEffect` | classification/internal/auto/loader.go:39-127 | what each step does to rows, lists and loads, and that it does nothing else |
| `RuleCaches.EntryRightIff` | classification/internal/auto/loader.go:111-127 | over every trace a cached list is an answer now if and only if the active rules of its user are those of the step that loaded it, whatever was invalidated in between |
| `RuleCaches.SetHarmfulIff` | classification/internal/auto/loader.go:118-124 | a Set leaves a wrong list, an invalidation before it or not, exactly when the active rules of its user have changed since its load |
| `RuleCaches.ChangedByAWrite` | classification/internal/auto/loader.go:118-124 | and then a write since the load changed them |
| `RuleCaches.RaceLeavesStaleEntry` | classification/internal/auto/loader.go:118-124 | such a run: a write and its invalidation between query and Set |
| `RuleLifecycles.Staging.Activate` | classification/internal/staging/activator.go:53-76 | a staged row becomes active with the time of the call and nothing else changes; an error unless the rule was staged |
| `RuleLifecycles.Staging.BulkActivate` | classification/internal/staging/activator.go:109-119 | exactly the listed rules that were staged become active, each with the time of its turn; the two counters add up, and for distinct ids count the staged ones |
| `RuleLifecycles.Staging.Tick` | classification/internal/staging/cron.go:117-183 | a failing query is an error and changes nothing; otherwise exactly the rows the query returned that can be decoded are activated, and all others stay as they were |
| `RuleLifecycles.Staging.Revoke` | classification/internal/staging/revoker.go:43-88 | an active row becomes revoked with the time of the call and nothing else changes; which error each other status gives |
| `RuleLifecycles.Staging.RevokeManually` | classification/internal/rules/store.go:172-188 | the same from staged or active |
| `RuleLifecycles.RevokedIsTerminal` | classification/internal/staging/revoker.go:49-56 | under every interleaving a revoked rule keeps status and time stamp until it is deleted, and does not come back |
| `RuleLifecycles.ActivatedAtMostOnce` | classification/internal/staging/activator.go:53-76 | under every interleaving of crons and users each rule is activated at most once |
| `RuleLifecycles.CronWaits` | classification/internal/staging/cron.go:125-136 | the cron activates only rules staged more than 48 hours before it read them |
| `RuleLifecycles.OneRowStep` | classification/internal/rules/store.go:153-188 | status only moves from staged to active to revoked, and no step rewrites a time stamp |
| `RuleLifecycles.StepEffect` | classification/internal/rules/store.go:120-188 | what each step of the interleaving leaves of every row and every waiting batch, and the activation it logs |
| `RuleLifecycles.TickProgress` | classification/internal/staging/cron.go:125-136 | oldest first: a tick at any later time either finishes the rules overdue at a moment or takes 100 of them |
| `RuleLifecycles.OverdueAllActivated` | classification/internal/staging/cron.go:117-183 | if n rules have been staged for more than 48 hours, all are active after ceil(n/100) undisturbed ticks, whatever else becomes overdue meanwhile |
| `RuleLifecycles.BatchExists` | classification/internal/staging/cron.go:125-136 | the query of an undisturbed tick has an answer for every table |
| `RuleLifecycles.TicksExist` | classification/internal/staging/cron.go:117-183 | undisturbed ticks can go on for as long as wanted |
| `RateLimits.AtMostLimitPerLife` | classification/internal/middleware/ratelimit.go:85-119 | at most limit requests are admitted in one lifetime of the key, however requests interleave with EXPIRE |
| `RateLimits.RunLifeCounted` | classification/internal/middleware/ratelimit.go:85-119 | the current lifetime has admitted exactly its first limit requests |
| `RateLimits.FewerThanTwiceLimit` | classification/internal/middleware/ratelimit.go:85-119 | in any interval of one window fewer than 2 * limit requests are admitted |
| `RateLimits.BoundIsTight` | classification/internal/middleware/ratelimit.go:62-119 | for every limit and window of at least one there is a run that admits 2 * limit - 1 requests within one window |
| `RateLimits.Limiter.Count` | classification/internal/middleware/ratelimit.go:85-96 | INCR and, on the first of a lifetime, EXPIRE, as steps of the interleaved model |
| `RateLimits.Limiter.Handle` | classification/internal/middleware/ratelimit.go:85-119 | one request run alone: its verdict, the remaining count and the key afterwards, as steps of the interleaved model |
| `RateLimits.HeldWithinLimit` | classification/internal/middleware/ratelimit.go:170-196 | with INCR and the rollback DECR interleaved the counter is held connections plus rejections under way, and no more than limit are held |
| `RateLimits.RejectedIff` | classification/internal/middleware/ratelimit.go:184-188 | an attempt is rejected exactly when held connections and rejections under way fill the limit |
| `RateLimits.ExpiryHarmlessIff` | classification/internal/middleware/ratelimit.go:170-196 | for every limit and every reachable state an expiry of the key is harmless, no continuation without a further expiry holding more than the limit, if and only if nothing is held and no rejection is under way |
| `RateLimits.ExpiryBreaksLimit` | classification/internal/middleware/ratelimit.go:180-182 | with every limit of at least one a harmful expiry is reached: a connection that outlives its key |
| `RateLimits.ConnectionLimiter.Acquire` | classification/internal/middleware/ratelimit.go:170-190 | run alone, as steps of the interleaved model: held exactly when the counter was below the limit, a rejected attempt leaves the counter as it was; the first of a key sets its expiration |
| `RateLimits.ConnectionLimiter.Release` | classification/internal/middleware/ratelimit.go:192-196 | the counter is one less; a held connection is no longer held, as a step of the interleaved model |
| `RateLimits.KeyHoldsCount` | classification/internal/middleware/ratelimit.go:170-196 | without a key there is neither a count nor an expiration, over every trace |
| `AutoEngines.StringSliceContains` | classification/internal/auto/llm_fallback.go:275-282 | true exactly when some name equals the value up to case |
| `AutoEngines.Match` | classification/internal/auto/llm_fallback.go:56-104 | a name comes back exactly when it was replied with at least 0.92 and names a known rule, with its confidence cut to 1 |
| `AutoEngines.Engine.FirstMatch` | classification/internal/auto/engine.go:83-109 | the first rule whose predicate means a match for the attributes and whose threshold is zero or at least 0.92 |
| `AutoEngines.Engine.CreateFromReply` | classification/internal/auto/engine.go:295-340 | the staged row an unknown name creates, field by field, or no change |
| `AutoEngines.Engine.UseAnswer` | classification/internal/auto/engine.go:216-291 | for any answer at all: when a rule is created, when one is staged again, and that a known name fires the first rule of that name |
| `AutoEngines.Engine.Evaluate` | classification/internal/auto/engine.go:62-178 | an error only when the rules cannot be loaded; the first qualifying rule fires with its threshold, 0.92 for zero; if none qualifies, the first rule a reply of at least 0.92 names, and any other reply leads nowhere; no rule is ever created or staged again |
| `Routers.ValidateResult` | classification/internal/router/router.go:198-215 | the reported flaw is one of the result, and none is reported exactly when it has none |
| `Routers.DomainIs` | classification/internal/router/router.go:153-156 | the sender domain is the part behind the only @ of the address, empty without one or with more |
| `Routers.AttributesDescribe` | classification/internal/router/router.go:150-168 | the attributes rules are matched against are exactly those of the event, field by field |
| `Routers.Router.RouteUnextracted` | classification/internal/router/router.go:107-143 | stages two and three for given attributes |
| `Routers.Router.RouteEvent` | classification/internal/router/router.go:61-143 | extraction wins, then the first rule that qualifies for the attributes of the event, then the rule the reply names, then the decision stack, also after an error of either stage; every field of the result; the result is valid exactly when the event has its ids |

## Left out

- HTTP, NATS, Redis, PostgreSQL, SQLite and language-model transports: replies, answers, times and generated ids
  are parameters that range over every value; a storage call that fails is modelled only where a row above says so.
- `Date.parse`, regular expressions, case folding and substring search are uninterpreted functions, given as parameters.
- Machine integers and floats: backoff shifts, versions and counters are integers, thresholds and scores reals;
  PostgreSQL's rounding of thresholds to two decimals is not modelled. Conditions carry int, float64, text, bool and
  lists; int32, int64, float32 and json.Number are not modelled.
- Ties in `ORDER BY` come in any order.
- SyncEngines.SyncEngine.Sync: leaves out the durations, times and texts of the report.
- SyncEngines.SyncEngine.UploadChanges: is one step here; its interleavings with enqueues and other uploads are in
  SyncProtocol, which tracks the queue and not the card table.
- SyncEngines.SyncEngine.DownloadUpdates: treats merge, apply and enqueue as one step; user edits between them are not modelled.
- The default of the local_version column and the card schema belong to the table's declaration, which is not part of
  this model; the default is a field of the engine.
- No client code sets a card's dirty flag; in DecisionRuns an edit of any row stands for whoever does.
- `countPending`, `getFailed`, `resetRetries` and the single `complete` of the queue: one-statement members.
- `queueCardDecision` in client/src/services/db.ts: it passes its arguments in another order than the queue takes them.
- client/src/utils/conflictResolver.ts: a case table that `mergeCards` does not use.
- Predicates.PredicateEvaluator.GetCompiledRegex: runs alone; with other calls interleaved only the agreement and the
  answers are proved (RegexCaches.AlwaysCoherent), not the recency order, and `ResetCache` is not among the interleaved steps.
- Consumers.Publisher.PublishResult: leaves out the translation of the payload.
- A classifier that returns neither a result nor an error: without a publisher the consumer would not survive it.
- RuleTables.RuleStore.IncrementUsage: leaves out last_used_at, as the other writes leave out updated_at.
- RuleTables.RuleStore.Create: takes whether the user exists as an argument; the deletion of a user, which deletes the
  user's rules, is not modelled.
- `UpdateStatus` is not among the lifecycle steps: it is unconditional, and its only caller never fires for active rules.
- RuleLifecycles.OverdueAllActivated: speaks of ticks whose rows can all be decoded; notifications are left out.
- Redis failures, on which the limiters let requests through, and a process that stops between INCR and EXPIRE.
- AutoEngines.Engine.Evaluate: actions are recorded by rule id; what an action does and whether it fails, and the
  predicate built for a rule created from a reply, are not modelled.
- Summer time: streaks count whole local days.
- `decideCurrent`, `updateCardState`, `resetQueue` and the selectors of the card store, `InvalidateAll` of the rule cache
  and the unordered reads of the rule store: they would only add easy members.
- UI, crypto, logging, configuration, notifications, migrations and the vector and graph stores.
