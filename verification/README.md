# Verdict path of the Congine SDK: a Dafny model

The Congine SDK decides whether a payload meets a contract. This project models the
stateful engine under that decision and the pure procedures that gate it, and proves what
they keep over whole runs.

- Caches. `LfuCache`, `LfuRuns` and `LfuHistory` model the schema cache, three linked dictionaries with
  a deliberately stale minimum, as a refinement of one table that is itself read off the history of calls.
  `OwnAndAudit`, `Snapshot`, `CanonicalText`, `PreparationCache` and `SemanticValidator` model schema
  identity and the cache of successful schema checks, and show that the cache cannot be observed.
- Concurrent protocols. `BoundedExecutor`, `EventBus` with `Retries` and `QueueEventBus`, and
  `CircuitBreaker` are labelled steps under every interleaving. A label that is not enabled
  changes nothing, so a run is any sequence of labels. Classes hold the source's fields and
  execute the same steps.
- Deadlines. `ValidateUseCase` models a call with an arbitrary clock and an arbitrary runner.
- Admission and rules. `JsonPointer`, `References`, `SchemaVocabulary`, `Admission` and
  `AdmissionMeaning` model what may become policy, `IssueCodes` what each issue says, `Readings` what the
  vocabulary's lists have to do with the rules, `Coverage` with `Slipping` whether every clause of a contract
  is executed, `Recursion` over `Paths` whether it recurs, and `PlainContracts` helps with concrete
  contracts; `RuleEngine` models the native rules with the exceptions Python raises; `Equality`, `Raising`
  and `BreachOrder` say what they compare, when they raise and in which order they report; `Faithful` shows what admission buys the rules. `Sync` puts
  admission, breaker and cache together.
- Streams. `StreamHandler` models which text of interleaved LLM runs may be evaluated.
- Arithmetic. `Ranks`, `Threshold` and `KsDrift` work over exact reals.

The clock, the network, the thread pool, the regular-expression engine, JSON Schema's
`check_schema` and `iter_errors`, and SHA-256 are parameters: functions or values the
theorems quantify over. `check_schema` is a function of the validator class and the content
without key order, and SHA-256 is taken to be injective. Number texts are a codec for the
finite doubles whose texts are number tokens with a point or an exponent.

## What the proofs found

Each of these is a lemma with a concrete input or an exact condition.

- `EventBus.NothingLostExactlyWhen`, `EventBus.DrainEmptiesExactlyWhen`: `max_retries < 1` loses
  batches uncounted, and `batch_size < 1` makes a drain leave events behind.
- `BoundedExecutor.ShedWithNothingInFlight`: the permit comes back after the in-flight count,
  so load can be shed with nothing in flight.
- `CircuitBreaker.HalfOpenExactlyUntilARecord`: a probe that never records holds the breaker
  half open for good.
- `ValidateUseCase.DegradedPassExactlyWhen`: a native validator that returns a degraded pass ends the
  call with it.
- `ValidateUseCase.MergeRespectsNative`: a native failure without breaches would be merged
  into a pass.
- `Faithful.RaisesExactlyOnExplicitNull`, `Faithful.ExplicitNullIsAdmitted`: admission skips
  `required: null`, `null_forbidden: null` and `properties: null`, and the rules raise on them.
- `Faithful.MinimumEnforcedExactlyWhen`, `Faithful.MaximumEnforcedExactlyWhen` and the contracts beside
  them: `minimum` beside a weaker `min`, or `maximum` beside a weaker `max`, is admitted and not enforced.
- `Recursion.ReferenceCheckExactly`, `Recursion.CyclesThroughKeywordsPass`, `Recursion.TreesDoNotRecur`:
  a comment in the source says that a cycle exhausts the stack and is refused. Those of direct `$ref` hops
  are, and no others: `{"not": {"$ref": "#"}}` is admitted and never ends, and a tree schema is admitted and
  does end.
- `Coverage.NobodyExecutesExactlyWhen`, `Coverage.PromiseKeptExactlyWhen` and the contracts of `Slipping`:
  admission promises that some evaluator executes every clause. Three kinds of clause are admitted and
  executed by nobody. Read natively in vain: beside an explicit null, a bound shadowed by a weaker `min` or
  `max`, an empty pattern. Known to the evaluator and idle: `then`, `else`, `minContains` and `maxContains`
  without their parent word, a format that is no string. Unread and passed by name: when the last segment of
  the path is `type`, a native word out of its place, a metadata word, an exclusive bound or, behind a dot, a word of
  the evaluator, when the path looks like the scanner's marker, or when twenty others sort before it. Below
  the properties nothing is scanned at all.
- `Threshold.OptimalEverywhereExactlyWhen`: the candidates are documented as every threshold a
  rule could distinguish; they leave out rejecting everything and rejecting nothing.
- `JsonPointer.LaxerExactlyWhen`: array tokens are laxer than RFC 6901, and exactly which.

## Model

| member | source | states |
|---|---|---|
| LfuCache.LFUCache.Get | libs/congine-sdk/src/congine_core/infrastructure/lfu_cache.py:79-94 | A hit returns the stored schema and moves the key to the next frequency; an expired key is removed and misses. The three dictionaries still stand for one table of (schema, expiry, frequency, stamp). |
| LfuCache.LFUCache.Put | libs/congine-sdk/src/congine_core/infrastructure/lfu_cache.py:96-128 | Capacity 0 stores nothing, an overwrite keeps the key and counts as a use, and an insert into a full cache first removes the victim; the new table is exactly that. |
| LfuCache.LFUCache.IncrementFreq | libs/congine-sdk/src/congine_core/infrastructure/lfu_cache.py:166-178 | The key leaves its bucket and joins the end of the next one; the minimum moves only when its bucket emptied. |
| LfuCache.LFUCache.EvictKey | libs/congine-sdk/src/congine_core/infrastructure/lfu_cache.py:199-213 | Removes one key from all three dictionaries and leaves the minimum frequency stale, which the representation allows. |
| LfuCache.LFUCache.ReconcileMinFreq | libs/congine-sdk/src/congine_core/infrastructure/lfu_cache.py:187-192 | A stale minimum is replaced by one that has a bucket. |
| LfuCache.LFUCache.EvictLfu | libs/congine-sdk/src/congine_core/infrastructure/lfu_cache.py:180-197 | Removes exactly the entry least by (frequency, moment it entered that frequency). |
| LfuCache.LFUCache.Exists | libs/congine-sdk/src/congine_core/infrastructure/lfu_cache.py:143-152 | Removes an expired key, and otherwise counts as no use. |
| LfuCache.LFUCache.SweepExpired | libs/congine-sdk/src/congine_core/infrastructure/lfu_cache.py:239-247 | Removes exactly the keys whose deadline had passed when the sweep read the clock for them, and returns how many. |
| LfuCache.LFUCache.Clear | libs/congine-sdk/src/congine_core/infrastructure/lfu_cache.py:130-136 | Forgets every entry. |
| LfuCache.LFUCache.Size | libs/congine-sdk/src/congine_core/infrastructure/lfu_cache.py:138-141 | The number of entries, which never exceeds the capacity. |
| LfuCache.HeadIsVictim | libs/congine-sdk/src/congine_core/infrastructure/lfu_cache.py:190-197 | The first key of the minimum bucket is the least entry by (frequency, stamp). |
| LfuCache.MinFreqExactWhenPresent | libs/congine-sdk/src/congine_core/infrastructure/lfu_cache.py:166-189 | However stale expiry leaves it, the minimum frequency is exact whenever its bucket exists. |
| LfuCache.UnlinkKeepsBuckets | libs/congine-sdk/src/congine_core/infrastructure/lfu_cache.py:199-213 | Unlinking a key keeps the buckets non-empty, in stamp order, and a partition of the remaining keys by frequency. |
| LfuCache.IncrementKeepsBuckets | libs/congine-sdk/src/congine_core/infrastructure/lfu_cache.py:166-178 | Moving a key up one frequency keeps the same partition and the lower bound on the minimum. |
| LfuRuns.RunKeepsOk | libs/congine-sdk/src/congine_core/infrastructure/lfu_cache.py:79-247 | Over every run of get, put, exists, sweep and clear the size stays within capacity and no two entries share a stamp. |
| LfuRuns.FullInsertRemovesExactlyTheLeast | libs/congine-sdk/src/congine_core/infrastructure/lfu_cache.py:115-128 | After any run, inserting into a full cache removes one entry, the least by (frequency, stamp), and touches no other. |
| LfuRuns.HitIsTheLatestPut | libs/congine-sdk/src/congine_core/infrastructure/lfu_cache.py:79-128 | Whatever was evicted in between, a hit is the value last put under that key since the last clear, before its deadline. |
| LfuRuns.UncrowdedCacheIsATtlMap | libs/congine-sdk/src/congine_core/infrastructure/lfu_cache.py:79-128 | While no more distinct keys than the capacity are ever put, and the clock never runs back, the cache answers exactly as a plain map with deadlines. |
| LfuHistory.FrequencyCountsUses | libs/congine-sdk/src/congine_core/infrastructure/lfu_cache.py:79-178 | After any run, an entry's frequency is one for its insert and one for each get that found it and each put that overwrote it since, exists and sweep counting nothing; and entries stand in the order of their last uses. |
| LfuHistory.VictimIsLeastUsed | libs/congine-sdk/src/congine_core/infrastructure/lfu_cache.py:180-197 | The key a full insert evicts is the one with the fewest uses, and among those the one whose last use is longest ago. |
| LfuHistory.PresentExactlyWhen | libs/congine-sdk/src/congine_core/infrastructure/lfu_cache.py:79-247 | A key leaves by a clear, by a get, exists or sweep that reads its last put deadline as passed, or as the least used of a full cache, and by nothing else; a put brings its key in. |
| LfuHistory.AnswersAreTheLatestPut | libs/congine-sdk/src/congine_core/infrastructure/lfu_cache.py:79-152 | A get answers the last put value exactly while the key is there and its deadline lies ahead, and exists says whether it would. |
| CanonicalText.CharRoundTrip | libs/congine-sdk/src/congine_core/infrastructure/schema_preparation_cache.py:141-150 | Every character comes back from its escaped form, surrogate pairs included (section 7 of RFC 8259). |
| CanonicalText.StringRoundTrip | libs/congine-sdk/src/congine_core/infrastructure/schema_preparation_cache.py:141-150 | Every string comes back from its quoted, escaped form. |
| CanonicalText.BlobRoundTrip | libs/congine-sdk/src/congine_core/infrastructure/schema_preparation_cache.py:141-150 | A parser undoes the printer: the text of a snapshot, before any text that may follow it, parses to the value with object order forgotten. |
| CanonicalText.SameValueSameBlob | libs/congine-sdk/src/congine_core/infrastructure/schema_preparation_cache.py:141-150 | Snapshots that differ only in object key order print the same text. |
| CanonicalText.BlobIdentifiesTheValue | libs/congine-sdk/src/congine_core/infrastructure/schema_preparation_cache.py:141-150 | Two snapshots print the same text exactly when they are the same value with maps unordered. |
| Snapshot.Memory.Own | libs/congine-sdk/src/congine_core/infrastructure/schema_preparation_cache.py:73-100 | On every finite object graph, cyclic or shared, the walk ends; it answers cacheable exactly when the graph unfolds to a finite plain JSON tree. The snapshot then unfolds to the same tree, shares no container with the input, and the input is as it was. |
| Snapshot.Memory.OwnNode | libs/congine-sdk/src/congine_core/infrastructure/schema_preparation_cache.py:103-138 | The recursive walk over the object memory, stopping at the first entry it cannot own; the measure is the containers not yet on the path. |
| Snapshot.Memory.OwnDict | libs/congine-sdk/src/congine_core/infrastructure/schema_preparation_cache.py:113-125 | The loop over a dict copies entry by entry, refuses a key that is no string, and allocates one new dict. |
| Snapshot.Memory.OwnList | libs/congine-sdk/src/congine_core/infrastructure/schema_preparation_cache.py:126-136 | The loop over a list copies item by item and allocates one new list. |
| Snapshot.CallerCannotReachTheSnapshot | libs/congine-sdk/src/congine_core/infrastructure/schema_preparation_cache.py:73-100 | Whatever the caller later does to its own objects, or to any it makes, the snapshot stays the tree it was. |
| OwnAndAudit.CacheableExactlyWhenItUnfolds | libs/congine-sdk/src/congine_core/infrastructure/schema_preparation_cache.py:103-138 | Owning succeeds exactly when some tree unfolds the graph, and yields that tree. |
| OwnAndAudit.UnfoldsOnce | libs/congine-sdk/src/congine_core/infrastructure/schema_preparation_cache.py:103-138 | A graph unfolds to at most one tree, so the snapshot is determined by the content. |
| OwnAndAudit.OwnedLeafIsItself | libs/congine-sdk/src/congine_core/infrastructure/schema_preparation_cache.py:103-112 | A leaf is owned as the JSON scalar it is, True as true and never as 1: exactly the leaf each scalar stands for is owned as that scalar. |
| OwnAndAudit.SameSnapshotExactlyWhenSeenAlike | libs/congine-sdk/src/congine_core/infrastructure/schema_preparation_cache.py:73-138 | Two owned graphs have the same snapshot exactly when at every path they show the same leaf, a list of the same length, or a dict with the same keys in the same order. |
| OwnAndAudit.RefusedExactlyWhenDefective | libs/congine-sdk/src/congine_core/infrastructure/schema_preparation_cache.py:85-93 | Refused exactly when some path leads to a leaf or key that is not plain JSON, or runs into a container already on it. |
| PreparationCache.SchemaPreparationCache.IsPrepared | libs/congine-sdk/src/congine_core/infrastructure/schema_preparation_cache.py:198-206 | A lookup answers membership, counts a hit or a miss, and makes a present key the most recent. |
| PreparationCache.SchemaPreparationCache.MarkPrepared | libs/congine-sdk/src/congine_core/infrastructure/schema_preparation_cache.py:208-221 | A mark makes the key the most recent and drops the oldest beyond capacity, counting each eviction. |
| PreparationCache.ResidentsAreTheMostRecent | libs/congine-sdk/src/congine_core/infrastructure/schema_preparation_cache.py:198-221 | After any history of lookups and marks the residents are the last `capacity` distinct touched keys, in order of last touch. |
| PreparationCache.ResidentExactlyWhenRecent | libs/congine-sdk/src/congine_core/infrastructure/schema_preparation_cache.py:198-221 | A key is resident exactly when it was touched and fewer than `capacity` distinct other keys have been touched since. |
| SemanticValidator.Identity | libs/congine-sdk/src/congine_core/infrastructure/schema_preparation_cache.py:286-296 | A cacheable schema is replaced by its owned snapshot, whose digest is that of its canonical text; an uncacheable one has no digest. |
| SemanticValidator.KeysSeparateEvaluators | libs/congine-sdk/src/congine_core/infrastructure/schema_preparation_cache.py:273-283 | Two keys are equal exactly for the same digest, validator class and format policy. |
| SemanticValidator.UncachedExactly | libs/congine-sdk/src/congine_core/infrastructure/jsonschema_validator.py:374-436 | Without a cache the answer is the guard's list if it has one, else one breach with the library's message if it refuses the schema, else its errors under the configured class and format policy, cut with a marker. |
| SemanticValidator.OneSuccessVouchesForAll | libs/congine-sdk/src/congine_core/infrastructure/jsonschema_validator.py:374-408 | One success of check_schema vouches for every document with the same key, because equal digests mean equal content. |
| SemanticValidator.StepKeepsWorldOk | libs/congine-sdk/src/congine_core/infrastructure/jsonschema_validator.py:348-436 | Each step of each interleaved call, lookup, check or mark, keeps every stored marker true. |
| SemanticValidator.CacheIsTransparent | libs/congine-sdk/src/congine_core/infrastructure/jsonschema_validator.py:374-436 | For every interleaving of validations with each other and with evictions, a call that has returned gave the breach list of the version that always runs check_schema, and every stored marker is true. |
| SemanticValidator.JsonSchemaSemanticValidator.Validate | libs/congine-sdk/src/congine_core/infrastructure/jsonschema_validator.py:348-436 | One call answers as the version without a cache does: pattern guard first, then the schema check, then the breaches. |
| SemanticValidator.JsonSchemaSemanticValidator.CheckSchemaPatterns | libs/congine-sdk/src/congine_core/infrastructure/jsonschema_validator.py:438-458 | For an owned snapshot, every property pattern over the length budget, in order, and nothing else; a snapshot that is no object raises. |
| SemanticValidator.PatternsReportedExactly | libs/congine-sdk/src/congine_core/infrastructure/jsonschema_validator.py:438-458 | The guard reports a field exactly when its spec has a pattern of more than 1000 characters. |
| SemanticValidator.PatternsReportedInOrder | libs/congine-sdk/src/congine_core/infrastructure/jsonschema_validator.py:438-458 | It reports fields in the order they are declared in. |
| AdmittedPatterns.AdmittedPassesTheGuard | libs/congine-sdk/src/congine_core/infrastructure/jsonschema_validator.py:438-458 | A contract that was admitted never trips the guard. |
| SemanticValidator.Drain | libs/congine-sdk/src/congine_core/infrastructure/jsonschema_validator.py:413-436 | At most the configured number of breaches and one truncation marker, present exactly when something was cut. |
| SemanticValidator.CutExactlyWhenMarked | libs/congine-sdk/src/congine_core/infrastructure/jsonschema_validator.py:413-436 | The first errors are kept in order, and the marker is there exactly when there were more. |
| BoundedExecutor.BoundedValidationExecutor.AcquireAndSubmit | libs/congine-sdk/src/congine_core/infrastructure/bounded_executor.py:168-202 | Refused when closed, shed when no permit is free, and otherwise one permit becomes one callable in flight; a pool that refuses it leaves the counts as they were and the executor closed. |
| BoundedExecutor.BoundedValidationExecutor.DecrementInFlight | libs/congine-sdk/src/congine_core/infrastructure/bounded_executor.py:212-215 | The first half of a release, under the lock: only the in-flight count changes. |
| BoundedExecutor.BoundedValidationExecutor.ReleasePermit | libs/congine-sdk/src/congine_core/infrastructure/bounded_executor.py:212-215 | The second half, after the lock is dropped: the bounded semaphore takes the permit back, or raises when it is already full. |
| BoundedExecutor.BoundedValidationExecutor.Shutdown | libs/congine-sdk/src/congine_core/infrastructure/bounded_executor.py:241-252 | Closing changes no count. |
| BoundedExecutor.PermitsAreConserved | libs/congine-sdk/src/congine_core/infrastructure/bounded_executor.py:168-215 | In every interleaving free permits, in-flight work and releases caught between their two steps add up to the capacity, unfinished work never exceeds it, and the semaphore is never over-released. |
| BoundedExecutor.ShedExactlyWhenSaturated | libs/congine-sdk/src/congine_core/infrastructure/bounded_executor.py:168-202 | A submit is shed exactly when every permit is held by in-flight work or by a release between its two steps. |
| BoundedExecutor.SubmitComesTo | libs/congine-sdk/src/congine_core/infrastructure/bounded_executor.py:168-202 | After any run a submit is refused when closed, shed and counted when every permit is held, closes the executor when the pool refuses, and otherwise is the next task with one permit less. |
| BoundedExecutor.ShedWithNothingInFlight | libs/congine-sdk/src/congine_core/infrastructure/bounded_executor.py:212-215 | A run in which a submit is shed although the in-flight count is 0: the in-flight count alone does not decide. |
| BoundedExecutor.ReleasedExactlyOnce | libs/congine-sdk/src/congine_core/infrastructure/bounded_executor.py:110-122 | Every accepted task gives its place and its permit back exactly once, whether it finished or was cancelled while queued. |
| BoundedExecutor.EverySubmitIsAccountedFor | libs/congine-sdk/src/congine_core/infrastructure/bounded_executor.py:168-202 | Every submit of a run was accepted, shed and counted, or refused. |
| BoundedExecutor.NothingAcceptedAfterShutdown | libs/congine-sdk/src/congine_core/infrastructure/bounded_executor.py:241-252 | Once the executor is closed no task is ever accepted again. |
| BoundedExecutor.EveryPermitComesBack | libs/congine-sdk/src/congine_core/infrastructure/bounded_executor.py:110-215 | From every reachable state the accepted work can be run down, by its own steps alone, to a state in which every permit is free. |
| QueueEventBus.Bus.Publish | libs/congine-sdk/src/congine_core/infrastructure/queue_event_bus.py:103-129 | An event is appended to an open bus with room, and counted as dropped otherwise. |
| QueueEventBus.Bus.StopBus | libs/congine-sdk/src/congine_core/infrastructure/queue_event_bus.py:182-226 | Closes the bus, remembers whether a drain was asked for, and touches neither the queue nor the drop count. |
| QueueEventBus.Bus.CollectBatch | libs/congine-sdk/src/congine_core/infrastructure/queue_event_bus.py:261-273 | The batch and what is left are the old queue, in order; a batch is within the batch size, at least one for a regular one, and short of it only when the queue ran out. |
| QueueEventBus.Bus.ShipLocked | libs/congine-sdk/src/congine_core/infrastructure/queue_event_bus.py:343-424 | Without a plane the batch is observed, with the breaker open dropped unposted. Otherwise it is posted until an answer is good, the attempts are used up or the bus is stopped: on an open bus it is shipped exactly when some answer within its attempts is good. |
| QueueEventBus.Bus.PostBatch | libs/congine-sdk/src/congine_core/infrastructure/queue_event_bus.py:374-424 | The retry loop over the network's answers: all posts but the last failed, the last decides, and a failure is final only with the attempts used up or on a stopped bus; the batch is shipped or dropped whole. |
| QueueEventBus.Bus.FlushRemaining | libs/congine-sdk/src/congine_core/infrastructure/queue_event_bus.py:309-320 | The whole queue is handed over in order, unless the batch size is below one, when nothing is. |
| QueueEventBus.Bus.FinishWorker | libs/congine-sdk/src/congine_core/infrastructure/queue_event_bus.py:275-298 | A worker that reads a requested drain leaves the queue empty and every publish accounted for. |
| QueueEventBus.Bus.Account | libs/congine-sdk/src/congine_core/infrastructure/queue_event_bus.py:103-129 | Whatever has been called, publish calls equal shipped, observed, dropped, lost, queued and in-hand events. |
| EventBus.TelemetryIsConserved | libs/congine-sdk/src/congine_core/infrastructure/queue_event_bus.py:103-424 | In every interleaving of producers, worker and stop, each publish call is in exactly one place: shipped, observed, dropped and counted, lost, queued, in the worker's hand, or about to be counted. |
| EventBus.NothingLostWithAnAttempt | libs/congine-sdk/src/congine_core/infrastructure/queue_event_bus.py:343-424 | With at least one attempt per batch, or no control plane, nothing is lost without being counted. |
| EventBus.NoAttemptLosesABatch | libs/congine-sdk/src/congine_core/infrastructure/queue_event_bus.py:374-424 | With a control plane and max_retries below 1, whatever the breaker and the queue, a batch vanishes: neither shipped nor counted. |
| EventBus.NothingLostExactlyWhen | libs/congine-sdk/src/congine_core/infrastructure/queue_event_bus.py:343-424 | No run loses an event uncounted exactly when there is no control plane or max_retries is at least 1. |
| Retries.BatchMeetsItsFate | libs/congine-sdk/src/congine_core/infrastructure/queue_event_bus.py:343-424 | In every run, what a step does to the batch in the hand is determined by the setting, the failed posts counted from the labels, and stop: a failed post is followed by another while attempts are left and the bus is open. |
| Retries.DroppedOnlyFor | libs/congine-sdk/src/congine_core/infrastructure/queue_event_bus.py:343-424 | A batch is dropped only by an open breaker, after as many failed posts as it has attempts, or after a failed post once stop came. |
| EventBus.PublishComesTo | libs/congine-sdk/src/congine_core/infrastructure/queue_event_bus.py:103-129 | A publish is accepted exactly when the bus is open and its queue is unbounded or has room. |
| EventBus.SizesAreKept | libs/congine-sdk/src/congine_core/infrastructure/queue_event_bus.py:261-320 | In every run the queue stays within its bound, and no batch is empty or larger than the batch size. |
| EventBus.BatchesAreGreedy | libs/congine-sdk/src/congine_core/infrastructure/queue_event_bus.py:261-320 | A batch is closed only when it is full or the queue is empty. |
| EventBus.FinalAttemptsAreTheLeast | libs/congine-sdk/src/congine_core/infrastructure/queue_event_bus.py:182-191 | The final flush works with the least number of attempts any stop asked for before its flags were read. |
| EventBus.BatchesAreInPublishOrder | libs/congine-sdk/src/congine_core/infrastructure/queue_event_bus.py:109-114 | Batches handed to shipping concatenate to a prefix of the accepted events in publish order, and no event is in two of them. |
| EventBus.DrainIsComplete | libs/congine-sdk/src/congine_core/infrastructure/queue_event_bus.py:237-259 | A worker that has stopped after seeing the drain flag leaves the queue empty and has handed over every accepted event. |
| EventBus.DrainAskedInTimeIsComplete | libs/congine-sdk/src/congine_core/infrastructure/queue_event_bus.py:184-259 | A drain asked for at any moment before the worker has finished reading its flag is seen whatever happens next, and when the worker has stopped the queue is empty and every accepted event was handed over in order. |
| EventBus.NoBatchSizeNoDrain | libs/congine-sdk/src/congine_core/infrastructure/queue_event_bus.py:309-320 | With a batch size below 1 a drain that was seen leaves events in the queue. |
| EventBus.DrainEmptiesExactlyWhen | libs/congine-sdk/src/congine_core/infrastructure/queue_event_bus.py:309-320 | A seen drain empties the queue in every run exactly for batch sizes of at least 1. |
| EventBus.AtMostOnePostAfterStop | libs/congine-sdk/src/congine_core/infrastructure/queue_event_bus.py:411-422 | Once stop is signalled each batch is posted at most once more. |
| EventBus.ClosedAcceptsNothing | libs/congine-sdk/src/congine_core/infrastructure/queue_event_bus.py:109-114 | A closed bus stays closed and accepts nothing. |
| EventBus.ShutdownFinishes | libs/congine-sdk/src/congine_core/infrastructure/queue_event_bus.py:237-320 | Whatever the network answers, each step of a closed bus's worker is strictly closer to the end, none is pushed back by others, and one is always possible. |
| CircuitBreaker.CircuitBreakerObject.MaybeHalfOpen | libs/congine-sdk/src/congine_core/infrastructure/circuit_breaker.py:120-126 | OPEN becomes HALF_OPEN exactly when the cooldown has passed. |
| CircuitBreaker.CircuitBreakerObject.AllowCall | libs/congine-sdk/src/congine_core/infrastructure/circuit_breaker.py:77-96 | CLOSED allows, OPEN refuses, HALF_OPEN allows one probe. |
| CircuitBreaker.CircuitBreakerObject.Succeeded | libs/congine-sdk/src/congine_core/infrastructure/circuit_breaker.py:98-104 | A success closes the breaker whatever its state. |
| CircuitBreaker.CircuitBreakerObject.Failed | libs/congine-sdk/src/congine_core/infrastructure/circuit_breaker.py:106-118 | A failure reopens a half-open breaker and opens one that reaches the threshold. |
| CircuitBreaker.CircuitBreakerObject.State | libs/congine-sdk/src/congine_core/infrastructure/circuit_breaker.py:65-75 | Reading the state takes a passed cooldown into account. |
| CircuitBreaker.ClosedExactlyBelowThreshold | libs/congine-sdk/src/congine_core/infrastructure/circuit_breaker.py:77-126 | Under any order of calls the breaker is CLOSED exactly when fewer failures than the threshold were recorded since the last success. |
| CircuitBreaker.StatusIsHistory | libs/congine-sdk/src/congine_core/infrastructure/circuit_breaker.py:65-126 | Status, probe and cooldown start are functions of the calls: failures since the last success, the time of the last record, and whether any call since found the cooldown over or was let through. |
| CircuitBreaker.AllowedExactlyWhen | libs/congine-sdk/src/congine_core/infrastructure/circuit_breaker.py:77-96 | A call is let through exactly below the threshold, or when the cooldown is over and nobody has been let through since the last record. |
| CircuitBreaker.OneProbePerTrip | libs/congine-sdk/src/congine_core/infrastructure/circuit_breaker.py:77-126 | Between a trip and the next record at most one call is let through, and only from HALF_OPEN. |
| CircuitBreaker.ProbeWaitsForTheCooldown | libs/congine-sdk/src/congine_core/infrastructure/circuit_breaker.py:77-126 | With a clock that never runs back, that one call comes after the cooldown. |
| CircuitBreaker.SilentProbeBlocksForever | libs/congine-sdk/src/congine_core/infrastructure/circuit_breaker.py:88-96 | A probe that never records leaves the breaker HALF_OPEN, letting nothing through. |
| CircuitBreaker.HalfOpenExactlyUntilARecord | libs/congine-sdk/src/congine_core/infrastructure/circuit_breaker.py:98-118 | With a probe out the breaker stays HALF_OPEN throughout exactly while nothing is recorded. |
| CircuitBreaker.LateFailureRestartsTheCooldown | libs/congine-sdk/src/congine_core/infrastructure/circuit_breaker.py:106-118 | A failure recorded while the breaker is already open restarts its cooldown. |
| ValidateUseCase.StageBudget.OpenStage | libs/congine-sdk/src/congine_core/usecases/validate_contract_usecase.py:67-84 | The stage deadline is the earlier of the cap and the aggregate deadline, and the wait is what is left of it in whole milliseconds. |
| ValidateUseCase.StageBudget.Exhausted | libs/congine-sdk/src/congine_core/usecases/validate_contract_usecase.py:98-104 | Expired exactly when a reading reaches the stage deadline, or a second reading reaches the aggregate one. |
| ValidateUseCase.ValidateContractUseCase.RunStage | libs/congine-sdk/src/congine_core/usecases/validate_contract_usecase.py:238-311 | A stage yields its value only when the runner returned and both deadlines were still ahead; otherwise it says why it was abandoned. |
| ValidateUseCase.ValidateContractUseCase.Finalize | libs/congine-sdk/src/congine_core/usecases/validate_contract_usecase.py:668-711 | Publishes the sanitised verdict, then applies the fail mode. |
| ValidateUseCase.ValidateContractUseCase.Run | libs/congine-sdk/src/congine_core/usecases/validate_contract_usecase.py:163-236 | A whole call: size bounds, schema lookup, native stage, semantic stage, merge, publish, fail mode. |
| ValidateUseCase.StageRunIsBounded | libs/congine-sdk/src/congine_core/usecases/validate_contract_usecase.py:238-311 | For any clock and runner a stage keeps its wait inside its deadlines and reads the clock one to three times. |
| ValidateUseCase.StageEndsExactly | libs/congine-sdk/src/congine_core/usecases/validate_contract_usecase.py:238-311 | A stage ends in its value, in a Congine exception, or abandoned with timeout, shed load, resource or internal error, exactly by the readings of the clock and what the runner did. |
| ValidateUseCase.VerdictExactly | libs/congine-sdk/src/congine_core/usecases/validate_contract_usecase.py:184-338 | The verdict of a measured call, status, breaches, reason and stage, from the clock readings in order and the two runner outcomes. |
| ValidateUseCase.UnmeasuredExactly | libs/congine-sdk/src/congine_core/usecases/validate_contract_usecase.py:163-183 | An unmeasurable or oversized input, or a missing contract, ends the call before any stage, payload first, with its own result. |
| ValidateUseCase.EveryWaitIsInside | libs/congine-sdk/src/congine_core/usecases/validate_contract_usecase.py:57-104 | Every wait handed to the runner satisfies now + wait <= stage deadline <= aggregate deadline. |
| ValidateUseCase.NoLateVerdict | libs/congine-sdk/src/congine_core/usecases/validate_contract_usecase.py:184-311 | Whatever the runner does and however the clock moves, a call ends in an enforced verdict exactly when every wired stage returned and was seen strictly before its own and the aggregate deadline; its breaches are then native, then semantic. |
| ValidateUseCase.PassMeansEvaluated | libs/congine-sdk/src/congine_core/usecases/validate_contract_usecase.py:184-338 | A pass never comes from an unmeasured input or a late stage: one that is not degraded means every wired stage found nothing in time, and a degraded one is the native validator's own, returned in time. |
| ValidateUseCase.DegradedPassExactlyWhen | libs/congine-sdk/src/congine_core/usecases/validate_contract_usecase.py:184-205 | A call ends in a degraded pass exactly when the native validator returned one in time for a measured input. |
| ValidateUseCase.EnforcedInsideTheBudget | libs/congine-sdk/src/congine_core/usecases/validate_contract_usecase.py:184-311 | With a clock that never runs back, an enforced verdict was reached stage after stage, entirely inside the aggregate budget. |
| ValidateUseCase.MergeRespectsNative | libs/congine-sdk/src/congine_core/usecases/validate_contract_usecase.py:318-338 | The merge recomputes the status from the breaches, so it keeps a native failure exactly when that failure comes with a breach. |
| ValidateUseCase.OneEventPerVerdict | libs/congine-sdk/src/congine_core/usecases/validate_contract_usecase.py:668-741 | Every call that reaches a verdict publishes exactly one event before returning or raising: the status, each breach sanitised in place, and the reason and stage of a degraded one; it raises exactly for a failing verdict in strict mode. |
| ValidateUseCase.ReasonNamesTheStage | libs/congine-sdk/src/congine_core/usecases/validate_contract_usecase.py:340-372 | A degraded verdict carries no breaches and names the abandoned stage with what abandoned it, timeout, shed load, resources or an internal error, or is the native validator's own degraded result. |
| JsonPointer.TwoPassesAreOne | libs/congine-sdk/src/congine_core/domain/contract_admission.py:293-298 | The two-pass unescape equals a one-pass decoder on every string (section 4 of RFC 6901). |
| JsonPointer.DecodeEscape | libs/congine-sdk/src/congine_core/domain/contract_admission.py:293-298 | Unescaping undoes the escaping of section 3 of RFC 6901. |
| JsonPointer.SplitJoin | libs/congine-sdk/src/congine_core/domain/contract_admission.py:307-309 | Splitting undoes joining for tokens without the separator. |
| JsonPointer.ResolvePointer | libs/congine-sdk/src/congine_core/domain/contract_admission.py:301-322 | The token loop computes the pointer's target, or that there is none. |
| JsonPointer.PointerRoundTrip | libs/congine-sdk/src/congine_core/domain/contract_admission.py:301-322 | Printing any path of any document and resolving it, bare or as a fragment, returns that very node. |
| JsonPointer.ResolvedIsANode | libs/congine-sdk/src/congine_core/domain/contract_admission.py:301-322 | Whatever resolves is a node of the document. |
| JsonPointer.ArrayIndexIsNatText | libs/congine-sdk/src/congine_core/domain/contract_admission.py:315-319 | The array indexes of section 4 of RFC 6901 are exactly the decimal texts of the natural numbers. |
| JsonPointer.LaxerExactlyWhen | libs/congine-sdk/src/congine_core/domain/contract_admission.py:315-319 | On an array of n items the resolver differs from section 4 of RFC 6901 on exactly the tokens int() reads as -n to n-1 that are not the decimal text of that index. |
| JsonPointer.IndexesAreLaxer | libs/congine-sdk/src/congine_core/domain/contract_admission.py:315-319 | "-1" is the last item and "+1" the second, where RFC 6901 has none. |
| References.ReferenceCycle | libs/congine-sdk/src/congine_core/domain/contract_admission.py:406-420 | Ends on every document and answers true exactly when following direct $ref hops never ends. |
| References.WalkIsComplete | libs/congine-sdk/src/congine_core/domain/contract_admission.py:260-290 | Every schema reachable through schema-bearing keywords, at any depth, is visited. |
| References.WalkIsSound | libs/congine-sdk/src/congine_core/domain/contract_admission.py:260-290 | Nothing else is visited. |
| References.VisitedBelow | libs/congine-sdk/src/congine_core/domain/contract_admission.py:260-290 | A schema below the root is visited under a longer path than the root's. |
| References.EveryKeywordIsWalked | libs/congine-sdk/src/congine_core/domain/contract_admission.py:233-257 | Every schema-bearing keyword is on one of the three lists the traversal follows. |
| SchemaVocabulary.FindUnenforcedKeywords | libs/congine-sdk/src/congine_core/domain/schema_vocabulary.py:183-247 | The two scanning loops, the de-duplication, the order and the cap compute the specified list. |
| SchemaVocabulary.EnforceableNeverFallsBack | libs/congine-sdk/src/congine_core/domain/schema_vocabulary.py:160-174 | A type the vocabulary calls enforceable is one the rule engine does not decline to judge. |
| SchemaVocabulary.OnlyTheCapHides | libs/congine-sdk/src/congine_core/domain/schema_vocabulary.py:243-247 | An unread clause is missing from the list only when twenty reported ones sort before it. |
| SchemaVocabulary.OnlyFindingsAreListed | libs/congine-sdk/src/congine_core/domain/schema_vocabulary.py:183-247 | Only unread clauses are listed. |
| SchemaVocabulary.ListedExactly | libs/congine-sdk/src/congine_core/domain/schema_vocabulary.py:243-247 | The list names every finding once, in order, up to twenty, and then one line with the number left out. |
| Sorting.FirstDifferenceDecides | libs/congine-sdk/src/congine_core/domain/schema_vocabulary.py:243 | The order is by code points: a prefix first, otherwise the first difference decides. |
| Admission.AdmitContract | libs/congine-sdk/src/congine_core/domain/contract_admission.py:146-230 | The checks in order, the advisory, the cap of 50 and the verdict equal their specification. |
| Admission.IssueList.CheckTopLevelLists | libs/congine-sdk/src/congine_core/domain/contract_admission.py:578-620 | `required` and `null_forbidden` must be lists of strings; each offence is appended once, in order. |
| Admission.IssueList.CheckProperty | libs/congine-sdk/src/congine_core/domain/contract_admission.py:623-665 | A dotted name or a non-object spec is one issue and ends the check of that property. |
| Admission.IssueList.CheckSpec | libs/congine-sdk/src/congine_core/domain/contract_admission.py:658-800 | Type, pattern, enum and range of one property, in that order. |
| Admission.IssueList.CheckUnsupportedKeywords | libs/congine-sdk/src/congine_core/domain/contract_admission.py:806-844 | Every reported path nobody answers for is an issue. |
| Admission.IssueList.CheckReference | libs/congine-sdk/src/congine_core/domain/contract_admission.py:352-403 | A $ref that is no string, not local, unresolved or cyclic is exactly one issue. |
| Admission.IssueList.CheckAll | libs/congine-sdk/src/congine_core/domain/contract_admission.py:190-222 | Every blocking check in the source's order, appended to one list. |
| AdmissionMeaning.AdmittedWhenNothingBlocks | libs/congine-sdk/src/congine_core/domain/contract_admission.py:226-230 | A contract is admitted exactly when no check blocks it: the 50-issue cap never flips the verdict. |
| AdmissionMeaning.ModeNeverDecides | libs/congine-sdk/src/congine_core/domain/contract_admission.py:223-230 | WARN never admits a contract STRICT refuses, nor the other way round. |
| AdmissionMeaning.AdmittedExactly | libs/congine-sdk/src/congine_core/domain/contract_admission.py:190-230 | The verdict with no list of issues in sight: admitted exactly when lists, properties, reported keywords, and bounds, references, patterns and formats at every visited schema are sound. |
| IssueCodes.IssuesAreExactlyTheFaults | libs/congine-sdk/src/congine_core/domain/contract_admission.py:190-222 | Each blocking issue is a code at a path exactly when the contract has that fault there, for every code of the published vocabulary and every check. |
| IssueCodes.VerdictListsTheFirst | libs/congine-sdk/src/congine_core/domain/contract_admission.py:223-230 | The verdict lists the first 50 of the blocking issues followed, in the advisory mode, by one note on null_forbidden. |
| IssueCodes.SpecIssuesInOrder | libs/congine-sdk/src/congine_core/domain/contract_admission.py:658-800 | The issues of a property come in the order type, pattern, enum, min, max, minimum, maximum. |
| AdmissionMeaning.UnreadClausesAreCovered | libs/congine-sdk/src/congine_core/domain/contract_admission.py:806-844 | In an admitted contract every clause the native rules do not read passes the keyword test by its name, or is hidden behind the scanner's cap. |
| PlainContracts.PlainVerdict | libs/congine-sdk/src/congine_core/domain/contract_admission.py:190-230 | A contract with no schema below its properties is admitted exactly when its lists, properties and reported clauses are in order. |
| Readings.ReadInAPropertyExactlyWhenItMatters | libs/congine-sdk/src/congine_core/domain/schema_vocabulary.py:38-40 | A keyword is on the per-property list exactly when removing it from some sound spec changes some validation; removing any other changes none, on any contract and payload. |
| Readings.ReadAtTheRootExactlyWhenItMatters | libs/congine-sdk/src/congine_core/domain/schema_vocabulary.py:31-33 | The same for the top-level list. |
| Readings.NativeWordsAreRead | libs/congine-sdk/src/congine_core/domain/schema_vocabulary.py:72-76 | The native words admission counts on are exactly the words some validation depends on. |
| Readings.KnownExactlyWhenJudged | libs/congine-sdk/src/congine_core/domain/schema_vocabulary.py:62-70 | A type name is recognised exactly when some value does not match it. |
| Readings.EnforceableExactly | libs/congine-sdk/src/congine_core/domain/schema_vocabulary.py:160-174 | A type declaration is enforceable exactly when it is one such name or a non-empty union of them. |
| Readings.MetadataAssertsNothing | libs/congine-sdk/src/congine_core/domain/schema_vocabulary.py:42-58 | The words nobody has to execute are the annotations and identifiers of JSON Schema (section 9 of Validation 2020-12, section 8 of Core 2020-12); no rule reads and no evaluator asserts any of them. |
| Readings.WalkedWordsAreKnown | libs/congine-sdk/src/congine_core/domain/contract_admission.py:233-257 | Every keyword admission walks into is a word of the evaluator, "properties", or one of two the static list leaves out, and no two are spelled alike. |
| Coverage.FindingsAreUnread | libs/congine-sdk/src/congine_core/domain/schema_vocabulary.py:183-241 | The scanner finds exactly the clauses, at the root and in properties, that the native rules do not read at that position. |
| Coverage.KeywordCheckExactly | libs/congine-sdk/src/congine_core/domain/contract_admission.py:806-844 | The keyword check passes exactly the contracts in which each unread clause is a word of the evaluator, an exclusive bound, mistaken for something else by its last segment, or past the cap. |
| Coverage.BoundsAreExecuted | libs/congine-sdk/src/congine_core/domain/contract_admission.py:487-535 | Every exclusive bound of an admitted contract is written in a form the dialect asserts. |
| Coverage.FormatsAreExecuted | libs/congine-sdk/src/congine_core/domain/contract_admission.py:538-570 | In an admitted contract a format the evaluator has no checker for is no string, or admission was given no capability to judge it by. |
| Coverage.NativelyExactlyWhen | libs/congine-sdk/src/congine_core/domain/validator.py:222-311 | A clause of an admitted contract that the native rules read is executed exactly when no top-level key is an explicit null, the bound is not shadowed by a weaker one read before it, and the pattern is not empty. |
| Coverage.ExecutedIsObeyed | libs/congine-sdk/src/congine_core/domain/validator.py:131-472 | A payload the rules pass obeys every clause of an admitted contract they execute: an object at the root, names present, no forbidden null, type, enum, both spellings of both bounds, and pattern. A word with no such meaning is obeyed by nothing. |
| Coverage.NobodyExecutesExactlyWhen | libs/congine-sdk/src/congine_core/domain/contract_admission.py:806-844 | In an admitted contract a clause is executed by nobody exactly when it is no exclusive bound, the evaluator lacks its word, its parent word or its format, and it is either read natively in vain or unread and passed as a word of the evaluator, by its last segment or past the cap. |
| Coverage.PromiseKeptExactlyWhen | libs/congine-sdk/src/congine_core/domain/contract_admission.py:1-12 | Admission keeps its promise, someone executes every clause, exactly for the admitted contracts in which no clause slips in one of those ways. |
| Slipping.ShadowedMinimumSlips | libs/congine-sdk/src/congine_core/domain/validator.py:234-246 | {"properties": {"x": {"min": a, "minimum": b}}} is admitted by every setting; with no evaluator for "minimum" nobody executes it and an x from a up to b passes, against the clause. |
| Slipping.ShadowedMaximumSlips | libs/congine-sdk/src/congine_core/domain/validator.py:237-253 | The same for "maximum" beside a greater "max". |
| Slipping.OrphanedBranchSlips | libs/congine-sdk/src/congine_core/infrastructure/jsonschema_validator.py:65-74 | "then" or "else" without "if" is admitted wherever the evaluator has the word, and does nothing. |
| Slipping.OrphanedCountSlips | libs/congine-sdk/src/congine_core/infrastructure/jsonschema_validator.py:65-79 | "minContains" or "maxContains" without "contains" likewise. |
| Slipping.NullSilencesTheRest | libs/congine-sdk/src/congine_core/domain/validator.py:398-472 | {"required": [name], "null_forbidden": null} is admitted, and as every validation raises nobody asks for the name. |
| Slipping.EmptyPatternSlips | libs/congine-sdk/src/congine_core/domain/validator.py:308-310 | {"pattern": ""} in a property is admitted and skipped by the rule: strings that do not match it in full pass. |
| Slipping.OddFormatSlips | libs/congine-sdk/src/congine_core/domain/contract_admission.py:551-557 | {"format": 1} is admitted wherever formats are asserted, since only a string is looked at. |
| Slipping.RootTypeSlips | libs/congine-sdk/src/congine_core/domain/contract_admission.py:819-823 | {"type": "array"} is admitted by every setting; with no evaluator for "type" nobody executes it and every object passes. |
| Slipping.RootEnumSlips | libs/congine-sdk/src/congine_core/domain/contract_admission.py:828-829 | {"enum": []} is admitted because "enum" is a native word, though not at the root: every object passes. |
| Slipping.NestedRequiredSlips | libs/congine-sdk/src/congine_core/domain/contract_admission.py:828-829 | A "required" inside a property is admitted with the native rules alone, and an object without the field passes. |
| Slipping.DottedNameSlips | libs/congine-sdk/src/congine_core/domain/contract_admission.py:820-823 | A clause named "words.type" is admitted by every setting and executed by nobody. |
| Slipping.DeeperWordsAreNotScanned | libs/congine-sdk/src/congine_core/domain/schema_vocabulary.py:193-204 | Below the properties no word is scanned: {"not": {word: ...}} is admitted wherever "not" is enforced, unless the word is judged at every depth. |
| Slipping.TheCapHidesAClause | libs/congine-sdk/src/congine_core/domain/schema_vocabulary.py:243-247 | A contract whose twenty-first unread clause, by no means mistaken for another, is admitted behind twenty that pass by name. |
| AdmissionMeaning.AdmittedReferencesEnd | libs/congine-sdk/src/congine_core/domain/contract_admission.py:332-420 | In an admitted contract, at every schema at any depth, a reference is absent or local, resolves, and has a finite direct chain. |
| AdmissionMeaning.AdmittedPatternsCompile | libs/congine-sdk/src/congine_core/domain/contract_admission.py:423-484 | In an admitted contract every pattern below the top level, as value or as patternProperties key, compiles within the length budget. |
| Recursion.OneValueNeverEndsExactlyWhen | libs/congine-sdk/src/congine_core/domain/contract_admission.py:350-356 | On one value the evaluation of a schema can go on without end exactly when references and words applied to that same value come round; schemas held by $defs or definitions are met by reference only. |
| Recursion.RecursExactlyWhenUnbounded | libs/congine-sdk/src/congine_core/domain/contract_admission.py:350-356 | A contract recurs, reaching a schema that comes back on the same value, exactly when for values of some depth its evaluation has no bound. |
| Recursion.BoundedUnlessItRecurs | libs/congine-sdk/src/congine_core/domain/contract_admission.py:350-356 | A contract that does not recur is evaluated, on a value of so many levels, no deeper than the number of its schemas at all those levels. |
| Recursion.RecursExactlyWhenAReferenceLeadsBack | libs/congine-sdk/src/congine_core/domain/contract_admission.py:332-356 | It recurs exactly when evaluating it meets a reference whose target leads back to that reference on the same value, by references and in-place words in any order. |
| Recursion.NeverEndsExactlyWhenRound | libs/congine-sdk/src/congine_core/domain/contract_admission.py:406-420 | Following direct $ref hops never ends exactly when they come round to a schema again. |
| Recursion.ReferenceCheckExactly | libs/congine-sdk/src/congine_core/domain/contract_admission.py:357-403 | The reference check passes exactly the contracts whose visited references are local, resolve, and start no round of direct hops: a cycle is refused exactly when it consists of direct hops. |
| Recursion.AdmittedHopsNeverComeRound | libs/congine-sdk/src/congine_core/domain/contract_admission.py:357-403 | No schema of an admitted contract, at any depth, starts a round of direct hops. |
| Recursion.CyclesThroughKeywordsPass | libs/congine-sdk/src/congine_core/domain/contract_admission.py:350-356 | {"not": {"$ref": "#"}} is admitted wherever "not" is enforced, and its evaluation has no bound on any value. |
| Recursion.TreesDoNotRecur | libs/congine-sdk/src/congine_core/domain/contract_admission.py:350-356 | {"properties": {"child": {"$ref": "#"}}} is admitted wherever "$ref" is enforced and comes back to itself in evaluation, but only deeper in the value: it does not recur. |
| Recursion.DefinitionsAloneDoNotRecur | libs/congine-sdk/src/congine_core/infrastructure/jsonschema_validator.py:90-95 | A contract of $defs alone does not recur, whatever its definitions hold and refer to. |
| RuleEngine.PathPresent | libs/congine-sdk/src/congine_core/domain/validator.py:61-74 | The walk with a moving variable answers whether every segment leads to a key. |
| RuleEngine.LocalValidator.RunFieldPresence | libs/congine-sdk/src/congine_core/domain/validator.py:131-149 | One breach for each required entry that is absent, in order; an entry that is no string raises. |
| RuleEngine.LocalValidator.RunOverProperties | libs/congine-sdk/src/congine_core/domain/validator.py:152-354 | A property rule runs over the declared properties in order and stops at the first exception. |
| RuleEngine.LocalValidator.RunNullGuard | libs/congine-sdk/src/congine_core/domain/validator.py:256-291 | One breach for each listed field that is present and null. |
| RuleEngine.LocalValidator.Run | libs/congine-sdk/src/congine_core/domain/validator.py:433-472 | The six rules in order; a payload that is no object is one breach. |
| RuleEngine.ForEachMeans | libs/congine-sdk/src/congine_core/domain/validator.py:131-354 | A rule raises exactly when one of its entries does, and otherwise reports exactly what its entries report. |
| Equality.EqualExactlyWhenSameNormal | libs/congine-sdk/src/congine_core/domain/validator.py:204 | Two values are equal exactly when they are the same once bool, int and float are one number and key order is forgotten. |
| Raising.RaisesExactlyWhenItTrips | libs/congine-sdk/src/congine_core/domain/validator.py:131-472 | On any contract, admitted or not, a validation of an object raises exactly when a list is none, an enum cannot be searched, a bound cannot be compared, or a pattern has no length or cannot be cached. |
| Raising.EnumReportsExactly | libs/congine-sdk/src/congine_core/domain/validator.py:185-212 | An enum that is a list, a string or a dict reports exactly the values that are not in it. |
| BreachOrder.BreachesComeRuleByRule | libs/congine-sdk/src/congine_core/domain/validator.py:433-472 | On any contract the breaches come in the order of the six rules. |
| BreachOrder.BreachesComeEntryByEntry | libs/congine-sdk/src/congine_core/domain/validator.py:131-354 | Within a rule they come in the order of its entries. |
| Faithful.DescendsIsNodeAt | libs/congine-sdk/src/congine_core/domain/validator.py:61-74 | A dotted name is present exactly when its path of keys leads to a node of the payload. |
| Faithful.MatchesByName | libs/congine-sdk/src/congine_core/domain/validator.py:89-120 | For an enforceable declaration, a value matches exactly when one of its own type names is declared. |
| Faithful.RaisesExactlyOnExplicitNull | libs/congine-sdk/src/congine_core/domain/validator.py:398-472 | On an object payload an admitted contract makes the rules raise exactly when properties, required or null_forbidden is spelled null. |
| Faithful.ExplicitNullIsAdmitted | libs/congine-sdk/src/congine_core/domain/contract_admission.py:578-594 | A contract that spells properties, required or null_forbidden as null is admitted, so that exception does happen. |
| Faithful.ReportsExactlyTheViolations | libs/congine-sdk/src/congine_core/domain/validator.py:131-472 | Otherwise the reported breaches are exactly the violations of a declarative reading with its own presence, type names, equality, numbers and bounds; none of them is about a bad or over-long pattern, and the payload passes exactly when there is no violation. |
| Faithful.NoTypeFallsBack | libs/congine-sdk/src/congine_core/domain/validator.py:89-120 | No type of an admitted contract reaches the unknown-type fallback. |
| Faithful.MinimumEnforcedExactlyWhen | libs/congine-sdk/src/congine_core/domain/validator.py:234-236 | A spec with both bounds enforces "minimum" exactly when "min" is absent, at least as strong, or shut out by the upper bound. |
| Faithful.MaximumEnforcedExactlyWhen | libs/congine-sdk/src/congine_core/domain/validator.py:237-239 | The same for "maximum" beside "max". |
| Faithful.MinBesideMinimumPasses | libs/congine-sdk/src/congine_core/domain/validator.py:234-246 | {"properties": {"x": {"min": a, "minimum": b}}} is admitted, and the rules pass any x from a up to b. |
| Faithful.MaxBesideMaximumPasses | libs/congine-sdk/src/congine_core/domain/validator.py:237-253 | {"properties": {"x": {"max": b, "maximum": a}}} is admitted, and the rules pass any x from above a up to b. |
| StreamHandler.RunState.RefuseLocked | libs/congine-sdk/src/congine_core/adapters/langchain_handler.py:499-507 | A refusal keeps the first reason and forgets the collected text. |
| StreamHandler.CongineCallbackHandler.CollectToken | libs/congine-sdk/src/congine_core/adapters/langchain_handler.py:442-460 | One observation changes its own run only: the text grows, or the run is refused. |
| StreamHandler.CongineCallbackHandler.OnLlmNewToken | libs/congine-sdk/src/congine_core/adapters/langchain_handler.py:378-396 | A refused observation raises the standing reason; an unusable run identity changes nothing. |
| StreamHandler.CongineCallbackHandler.OnLlmEnd | libs/congine-sdk/src/congine_core/adapters/langchain_handler.py:398-419 | The run is forgotten first; its refusal, then the response's, then a mismatch raise, and otherwise one evaluation follows. |
| StreamHandler.CongineCallbackHandler.OnLlmError | libs/congine-sdk/src/congine_core/adapters/langchain_handler.py:421-435 | Forgets the run. |
| StreamHandler.EvaluatedExactly | libs/congine-sdk/src/congine_core/adapters/langchain_handler.py:462-472 | In every interleaving, the end of a run evaluates a text exactly when it is the complete final response and the run's stream since its last end or error, if any, was all text, within the limit, and spells it. |
| StreamHandler.OnlyGovernedTextIsEvaluated | libs/congine-sdk/src/congine_core/adapters/langchain_handler.py:398-491 | No callback ever evaluates any other text. |
| StreamHandler.FirstReasonStands | libs/congine-sdk/src/congine_core/adapters/langchain_handler.py:442-507 | From the first observation that cannot be accepted, every later token of the run and its end raise that reason. |
| StreamHandler.RefusedHasAFault | libs/congine-sdk/src/congine_core/adapters/langchain_handler.py:442-507 | A stream that is not all text within the limit has such a first observation. |
| StreamHandler.AnsweredExactly | libs/congine-sdk/src/congine_core/adapters/langchain_handler.py:378-491 | What every callback answers after any history: silence, the first fault of the stream, the fault of the response, a mismatch, an unusable identity, or one evaluation. |
| StreamHandler.BuffersAreBounded | libs/congine-sdk/src/congine_core/adapters/langchain_handler.py:442-507 | In every interleaving a run holds at most the limit in text, and a refused one none. |
| StreamHandler.RunsNeverMeet | libs/congine-sdk/src/congine_core/adapters/langchain_handler.py:442-472 | What a run's callback does is the same as if no other run existed. |
| Ranks.AverageRanks | libs/congine-sdk/tools/p1_5_evidence/analysis.py:51-69 | The nested scan ends and gives every position (number smaller) + (number equal + 1)/2. |
| Ranks.GroupRank | libs/congine-sdk/tools/p1_5_evidence/analysis.py:58-68 | A maximal run of equal values in sorted order shares the average of its positions. |
| Ranks.RanksFollowValues | libs/congine-sdk/tools/p1_5_evidence/analysis.py:51-69 | Ranks order positions exactly as values do, and ties share a rank. |
| Ranks.RanksSum | libs/congine-sdk/tools/p1_5_evidence/analysis.py:51-69 | However the values tie, the ranks add up to n(n+1)/2. |
| Threshold.ScoreRule | libs/congine-sdk/tools/p1_5_evidence/analysis.py:196-240 | The four counts and the example names are those of the four cells, and the counts add up to the row count. |
| Threshold.CellHoldsExactly | libs/congine-sdk/tools/p1_5_evidence/analysis.py:196-240 | Each cell holds exactly the rows with its outcome, once each and in order. |
| Threshold.ExamplesAreTheFirst | libs/congine-sdk/tools/p1_5_evidence/analysis.py:196-240 | The examples are the names of the first rows of the cell, up to the number asked for. |
| Threshold.BestThreshold | libs/congine-sdk/tools/p1_5_evidence/analysis.py:258-273 | Absent exactly when there is no candidate, and otherwise the least candidate among those with the fewest errors. |
| Threshold.NoCandidateExactlyWhen | libs/congine-sdk/tools/p1_5_evidence/analysis.py:243-255 | There is no candidate exactly when all values are equal. |
| Threshold.SomeCandidateSplitsAlike | libs/congine-sdk/tools/p1_5_evidence/analysis.py:243-255 | Every real threshold from the least value up to the greatest splits the rows as some candidate midpoint does. |
| Threshold.BestIsOptimal | libs/congine-sdk/tools/p1_5_evidence/analysis.py:258-273 | No real threshold from the least value up to the greatest misclassifies fewer rows. |
| Threshold.OptimalEverywhereExactlyWhen | libs/congine-sdk/tools/p1_5_evidence/analysis.py:243-273 | The result is optimal over all reals exactly when neither rejecting everything nor rejecting nothing errs less. |
| Threshold.RejectingNothingCanWin | libs/congine-sdk/tools/p1_5_evidence/analysis.py:243-273 | Two cheap rows for which rejecting nothing errs less than the returned threshold. |
| KsDrift.KSDriftEngine.AddReference | libs/congine-sdk/src/congine_core/infrastructure/ks_drift.py:71-73 | The window is the last max_samples observations since the last reset. |
| KsDrift.WindowIsTheEnd | libs/congine-sdk/src/congine_core/infrastructure/ks_drift.py:71-73 | The window is an end piece of the observations, as long as they or the capacity allow. |
| KsDrift.KSDriftEngine.AddReferenceSamples | libs/congine-sdk/src/congine_core/infrastructure/ks_drift.py:75-78 | Adding many keeps that. |
| KsDrift.KSDriftEngine.Reset | libs/congine-sdk/src/congine_core/infrastructure/ks_drift.py:90-92 | Nothing is remembered. |
| KsDrift.KSDriftEngine.SampleCount | libs/congine-sdk/src/congine_core/infrastructure/ks_drift.py:80-88 | Never above max_samples, and full exactly when that many observations were made. |
| KsDrift.NewEngine | libs/congine-sdk/src/congine_core/infrastructure/ks_drift.py:52-69 | A window of no samples is refused. |
| KsDrift.KSDriftEngine.Detect | libs/congine-sdk/src/congine_core/infrastructure/ks_drift.py:97-134 | An empty window or sample is an error; otherwise the statistic of the window and the sample against the threshold. |
| KsDrift.StatisticIsSupremum | libs/congine-sdk/src/congine_core/infrastructure/ks_drift.py:118-124 | The statistic at the merged sample points is the supremum, over all reals, of the gap between the two empirical distribution functions, and is attained. |
| KsDrift.StatisticBehaves | libs/congine-sdk/src/congine_core/infrastructure/ks_drift.py:118-131 | It lies in [0,1], is symmetric, and exceeds the threshold exactly when the distributions differ by more somewhere. |
| Sync.SyncContractsUseCase.FetchSync | libs/congine-sdk/src/congine_core/usecases/sync_contracts_usecase.py:250-289 | An open breaker or a failed fetch falls back to the snapshot; a wired breaker hears of every fetch it allowed, and without one every fetch is tried. |
| Sync.SyncContractsUseCase.Apply | libs/congine-sdk/src/congine_core/usecases/sync_contracts_usecase.py:291-305 | Nothing obtained changes nothing; a snapshot is saved exactly for a non-empty fetched list. |
| Sync.SyncContractsUseCase.PrimeCache | libs/congine-sdk/src/congine_core/usecases/sync_contracts_usecase.py:307-337 | The cache receives one put for each accepted contract, in order, and nothing else; each rejection is counted. |
| Sync.SyncContractsUseCase.AdmitOne | libs/congine-sdk/src/congine_core/usecases/sync_contracts_usecase.py:339-394 | A failing check refuses the contract; a refusal is recorded with its codes. |
| Sync.JudgedExactly | libs/congine-sdk/src/congine_core/usecases/sync_contracts_usecase.py:307-394 | A contract is put exactly when it has an id and a schema, its check does not fail, and admits it; one that has both and is not put counts as rejected. |
| Sync.EveryContractIsCounted | libs/congine-sdk/src/congine_core/usecases/sync_contracts_usecase.py:307-394 | Every contract of a pass is put, rejected and counted, or blank. |
| Sync.RefusalHasACode | libs/congine-sdk/src/congine_core/usecases/sync_contracts_usecase.py:339-394 | A refusal by the check leaves at least one code. |
| Sync.SyncContractsUseCase.RecordRejection | libs/congine-sdk/src/congine_core/usecases/sync_contracts_usecase.py:396-411 | The counter grows by one and the failure is remembered. |
| Sync.GetIsTheLatestAdmitted | libs/congine-sdk/src/congine_core/usecases/sync_contracts_usecase.py:307-337 | Over any history of syncs and cache use, get(id) returns nothing or exactly the latest admitted schema of that id, before its deadline, and that schema meets every demand of admission. |
| Sync.LastKnownGoodServes | libs/congine-sdk/src/congine_core/usecases/sync_contracts_usecase.py:307-337 | In a cache that is never crowded, a rejected, skipped or failed update leaves the last admitted schema serving until its deadline. |
| Sync.AfterIsRun | libs/congine-sdk/src/congine_core/usecases/sync_contracts_usecase.py:307-337 | The table a sync leaves is the one its operations leave, so histories of passes are runs of the cache. |

## Left out

- Snapshot.Memory.Own: memory is a map from identities to plain dicts and lists; objects of other types
  are leaves, and the identity of equal scalars is not tracked.
- SemanticValidator.JsonSchemaSemanticValidator.CheckSchemaPatterns: on a schema that cannot be owned the
  guard is any deterministic function of the object graph.
- SemanticValidator.CacheIsTransparent: floats are reals with a text codec, so -0.0 and 0.0 are one value;
  strings hold no surrogate code points, because ASCII escaping merges a surrogate pair with
  the character it stands for.
- BoundedExecutor.PermitsAreConserved: a call from one of the executor's own workers runs inline and
  takes no permit; it is not a step of the model.
- EventBus.TelemetryIsConserved: the serializer and the logger do not raise; backoff delays and
  the worker's poll are labels without a duration.
- QueueEventBus.Bus.ShipLocked: the breaker is any function of how often it was asked; what shipping records
  in it afterwards is not modelled.
- JsonPointer.PointerRoundTrip: int() reads ASCII digits and whitespace only, not the other
  Unicode digits and spaces, and not its limit on the number of digits.
- RuleEngine.LocalValidator.Run: payload numbers are exact reals, without NaN, infinities or
  rounding; str, dict and list subclasses are not modelled; breach messages are prose.
- Admission.AdmitContract: issue messages and the sorted code list are prose for logs.
- Threshold.ScoreRule: examples are row names, without the formatted numbers behind them.
- StreamHandler.CongineCallbackHandler.OnLlmEnd: the result bookkeeping after the evaluation is
  left out, as are callbacks on a closed container, which touch no run.
- Sync.SyncContractsUseCase.FetchSync: the repository's I/O is a list or a failure; single-flight boot
  coordination and writing the snapshot are not modelled.
- ValidateUseCase.ValidateContractUseCase.Run: durations and log lines are left out; the async
  twins make the same steps.
- The lifecycle of the schema cache: its sweeper thread and the refusal of calls after a stop.
- KsDrift.KSDriftEngine.Detect: the p-value of the result is left out; it is a series of exponentials.
- Coverage.NobodyExecutesExactlyWhen: a word counts as executed by the evaluator when its handler runs on it;
  what the handler does is jsonschema's, such as skipping the words beside a `$ref` in the dialects
  before 2019-09. `$defs` and `definitions` count as the evaluator's words, as its capability says. What the
  evaluator asserts is a set of words; a static list that names words its dialect does not assert is not
  such a set. Clauses are those of the root and of the properties, as in the scanner.
- Recursion.RecursExactlyWhenUnbounded: a step is one the evaluator may take; a handler that stops early, as
  `anyOf` does at its first match, takes fewer. Words the traversal of admission does not know, such
  as `dependencies`, hold no schema, and `$id` changes no base.
- Pearson and Spearman coefficients: square roots.
- What LangChain message inspection looks at: it yields a text or a refusal reason.
- The bodies of RE2, jsonschema and SHA-256: foreign code, kept as functions.
- HTTP and file repositories, configuration, logging, sanitising, wiring, background sync:
  wrappers, or the same ideas in an easier form.
- Thread starting and joining, interrupts, and process exit hooks.
