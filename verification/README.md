# A verified model of python-commons

This project models the stateful core of the `mp_commons` library in Dafny and proves what
its components promise, over every input, every run and every interleaving.  Where the code
does not keep a documented promise, the model follows the code, a lemma names a run that breaks
the promise, and another gives the exact condition under which it holds.

`dafny verify dfyconfig.toml` checks the whole project.

| file | component |
|---|---|
| `MongoEventStore.dfy` | `MongoEventStore.append` and `load`: any number of writers, one step per store command |
| `EventSourcing.dfy` | in-memory event store, aggregate root, repository, snapshots and replay |
| `MongoRepository.dfy` | the repository over the interleaved Mongo store |
| `RedisBreaker.dfy`, `RedisCounting.dfy`, `RedisQuiet.dfy` | `RedisCircuitBreaker`: four shared keys, two scripts, any number of clients |
| `CircuitBreaker.dfy` | the in-process `CircuitBreaker` with overlapping calls |
| `LruCache.dfy`, `LruExpiry.dfy` | `AsyncLRUCache`, and the expiry its documentation describes |
| `CacheAside.dfy`, `CacheLoads.dfy` | `CacheAsidePolicy.get_or_load`: double-checked locking per key |
| `TokenBucket.dfy`, `RateLimiters.dfy` | the token bucket, the local window limiter, the Redis limiter |
| `Saga.dfy` | `SagaOrchestrator.run` with a store that may raise at any save |
| `Search.dfy`, `Pagination.dfy` | in-memory search, page slices and page counts |
| `Deduplication.dfy` | `DeduplicationMiddleware` over `DynamoDBIdempotencyStore` |
| `RedisLock.dfy` | `RedisLock` |
| `Common.dfy` | shared datatypes and sequence facts |

How the protocols are modelled: each has a `System` datatype, a total function `Step` (one atomic
store command, locked section or callback outcome; an event that is not enabled changes nothing),
and `Run` over a list of events.  `Reachable` states are those of some run, so a theorem about
reachable states is one about every interleaving.  A user callback (loader, handler, guarded
function, saga step) has an arbitrary outcome.  Time is an explicit parameter.  Objects
that the library updates in place are classes whose methods are proved equal to the functions
that the theorems are about.

Assumptions: the unique index on (stream_id, version) exists; batches are numbered the way the
repository numbers them; Redis, MongoDB and DynamoDB commands are atomic on one copy of the data
and do not fail by themselves; clocks do not go back (the results of `LruCache.dfy` hold for any
readings); numbers are exact; tokens of the lock are unique.

Where code and documentation disagree:

- The LRU cache documents an expiry by last access (src/mp_commons/application/cache/lru.py:47-51).
  The code sets it on `set` and a hit does not renew it: `LruExpiry.HitDoesNotRenew`, with the exact
  condition in `LruExpiry.ExpiresAsDocumentedExactly`.
- The Redis breaker documents that only one instance probes
  (src/mp_commons/resilience/circuit_breaker/redis_breaker.py:3-5, 108-110).  `RedisBreakers.ProbesOverlap` refutes
  it for every policy and `RedisBreakers.OverlappingProbes` says what holds instead.
- The Redis breaker counts half-open successes on top of the failures, so `success_threshold` does
  not mean what its name says: `RedisBreakers.SuccessThresholdExactly`, `RedisBreakers.OneSuccessClosesExactly`.
- The Redis breaker documents a rejection until the timeout has elapsed
  (src/mp_commons/resilience/circuit_breaker/redis_breaker.py:148-150).  `RedisQuietPeriod.AdmittedAsItReopens` is a
  run that admits earlier, `RedisQuietPeriod.QuietExactly` the exact condition on the policy, and
  `RedisQuietPeriod.PromptRunsAreQuiet` the one on a run.
- A failed probe need not reopen either breaker: `CircuitBreakers.ProbeFailureReopensExactly`,
  `RedisBreakers.EveryProbeFailureReopensExactly`.
- The Redis limiter calls itself a sliding window (src/mp_commons/adapters/redis/rate_limiter.py:12):
  `RateLimiters.DenialsProlongTheBlock` is a run on which it is not one, `RateLimiters.SlidesExactly` the
  exact condition, and `RateLimiters.RedisIsStricter` what holds always.
- `save` drains the aggregate before the append can raise: `EventSourcing.ReuseAfterConflict`, with
  the exact condition in `EventSourcing.NoLostUpdate`; over the Mongo store, `MongoRepositories.ReuseHidesUpdate`
  and `MongoRepositories.ReturnedSaveSawEverything`.

## Model

| member | source | states |
|---|---|---|
| `MongoEventStores.HistoryIsGapFree` | src/mp_commons/adapters/mongodb/event_store.py:41-77 | In every interleaving of any number of writers, a stream holds exactly versions 1..n, the i-th inserted document carries version i, and the unique index holds a key of the stream exactly when its version is in 1..n |
| `MongoEventStores.WinnerOwnsItsRange` | src/mp_commons/adapters/mongodb/event_store.py:56-77 | A call that returned without a conflict still owns all of positions expected+1..expected+k, in its own order, whatever the others did |
| `MongoEventStores.WinnersAreDisjoint` | src/mp_commons/adapters/mongodb/event_store.py:65-77 | Two calls on one stream that both returned wrote disjoint ranges, so never from the same expected version |
| `MongoEventStores.LoserLeavesPrefix` | src/mp_commons/adapters/mongodb/event_store.py:65-77 | A call that raised met a real conflict (the reported version differs from the expected one and lies behind what it stored) and left a proper prefix of its batch and nothing else |
| `MongoEventStores.AtomicExactlyForSingleEvents` | src/mp_commons/adapters/mongodb/event_store.py:56-77 | For every stream, batch and expected version: appending is all-or-nothing in every interleaving if and only if the batch has at most one event or the expected version is negative, which no stream has |
| `MongoEventStores.OvertakenMidBatch` | src/mp_commons/adapters/mongodb/event_store.py:69-77 | For every batch of two or more events and every expected version that a stream can have, there is a run that ends with part of the batch stored and the call raised |
| `MongoEventStores.AppendOnly` | src/mp_commons/adapters/mongodb/event_store.py:56-77 | Over every continuation of every run the collection only grows: no document changes or disappears |
| `MongoEventStores.LoadReturnsTail` | src/mp_commons/adapters/mongodb/event_store.py:79-88 | At any moment of any run, a sorted query for versions above any v returns exactly the events of the stream behind v, whole and in order: all of them for negative v, none beyond the end |
| `MongoEventStores.StepKeepsInv` | src/mp_commons/adapters/mongodb/event_store.py:56-77 | Every atomic step of every writer keeps the inductive invariant: gap-free streams, each writer's stored prefix in place, each document attributed to the call that wrote it |
| `MongoEventStores.ChecksExactly` | src/mp_commons/adapters/mongodb/event_store.py:65-67 | The check passes exactly if the stream is as long as expected; otherwise the error reports that length and nothing is stored |
| `MongoEventStores.InsertsExactly` | src/mp_commons/adapters/mongodb/event_store.py:69-76 | In every reachable state, an insert stores the next event exactly if the stream is still as long as this call has left it; otherwise nothing is stored and the error reports the length found |
| `MongoEventStores.UndisturbedInsertSucceeds` | src/mp_commons/adapters/mongodb/event_store.py:69-71 | Without interference a batch that passed the version check is stored whole, behind the stream, and leaves it gap-free |
| `MongoEventStores.SoloRunIsInsertMany` | src/mp_commons/adapters/mongodb/event_store.py:69-76 | The protocol's insert steps of one writer running alone compute exactly the ordered insert that the class method is specified by |
| `MongoEventStores.MongoEventStore.InsertOne` | src/mp_commons/adapters/mongodb/event_store.py:41-50 | Under the unique index a document is stored exactly when its key is free, else nothing changes |
| `MongoEventStores.MongoEventStore.Append` | src/mp_commons/adapters/mongodb/event_store.py:56-77 | With no other writer: an empty batch does nothing, a wrong version raises with the count and changes nothing, and on a gap-free collection a numbered batch succeeds exactly when the version matches and keeps it gap-free |
| `LruCaches.Inclusion` | src/mp_commons/application/cache/lru.py:98-148 | LRU inclusion: after the same operations and clock readings, the larger cache holds every entry of the smaller one, with equal value and expiry and in the same recency order, and has at least as many hits |
| `LruCaches.RunKeepsInv` | src/mp_commons/application/cache/lru.py:98-148 | In every run keys are distinct and the size is at most maxsize |
| `LruCaches.CountersAddUp` | src/mp_commons/application/cache/lru.py:98-113 | In every run hits plus misses equals the number of get calls |
| `LruCaches.HoldsLatest` | src/mp_commons/application/cache/lru.py:98-148 | An entry in the cache is always that of the latest set of its key that no delete or clear followed |
| `LruCaches.GetIsFresh` | src/mp_commons/application/cache/lru.py:98-113 | get returns None or the value of the latest set of the key that was neither deleted, cleared nor expired |
| `LruCaches.RecencyOrder` | src/mp_commons/application/cache/lru.py:98-135 | In every run the entries stand in the order of their last set or hit |
| `LruCaches.EvictsLeastRecent` | src/mp_commons/application/cache/lru.py:115-135 | A set that makes another key disappear left the cache full and evicted the key whose last set or hit is older than that of every key kept |
| `LruCaches.Retention` | src/mp_commons/application/cache/lru.py:98-148 | A key once set or hit is still there unless it was deleted, cleared or found expired, or at least maxsize other keys were used since |
| `LruCaches.SetThenGet` | src/mp_commons/application/cache/lru.py:98-135 | In every run, right after a set a get answers its value exactly while no more than the ttl in effect (the one passed, else the default, else none) lies between the two clock readings |
| `LruCaches.AnswersInTime` | src/mp_commons/application/cache/lru.py:98-148 | And it still does so after any operations that neither set nor remove the key, look it up in time and use fewer than maxsize other keys |
| `LruCaches.GetCountsExactly` | src/mp_commons/application/cache/lru.py:98-113 | In every run, a get is a hit exactly if it finds an unexpired entry, which it puts last; a miss leaves no entry for the key; the other entries keep their order |
| `LruCaches.AsyncLRUCache.Create` | src/mp_commons/application/cache/lru.py:54-62 | A cache is made exactly for maxsize >= 1 and is empty with zero counters |
| `LruCaches.AsyncLRUCache.Get` | src/mp_commons/application/cache/lru.py:98-113 | The object refines the specification step: an expired or missing entry is a miss and is dropped, a live one is a hit and moves to the end |
| `LruCaches.AsyncLRUCache.Set` | src/mp_commons/application/cache/lru.py:115-135 | The object refines the specification step: the entry goes to the end with its own or the default expiry, and one eviction at most keeps the size |
| `LruCaches.AsyncLRUCache.Delete` | src/mp_commons/application/cache/lru.py:137-143 | The entry is gone, the others keep their order, and the answer says whether it was there |
| `LruCaches.AsyncLRUCache.Clear` | src/mp_commons/application/cache/lru.py:145-148 | All entries go and both counters stay |
| `LruCaches.AsyncLRUCache.GetOrLoad` | src/mp_commons/application/cache/lru.py:181-188 | A cached non-None value is returned without loading; otherwise the loader's value is returned and stored on whatever other operations have made of the cache meanwhile, a cached None included; a raising loader stores nothing |
| `LruExpiry.HitDoesNotRenew` | src/mp_commons/application/cache/lru.py:47-51 | For every positive ttl, default or override, a run of set, hit and get on which the code answers None and the documented expiry by last use answers the value |
| `LruExpiry.ExpiresAsDocumentedExactly` | src/mp_commons/application/cache/lru.py:98-135 | For every set of permitted overrides: code and documented expiry give the same answers in every run with forward clock readings if and only if every ttl in effect is missing or not positive |
| `LruExpiry.DefaultTtlExactly` | src/mp_commons/application/cache/lru.py:98-135 | Without overrides they agree in every such run if and only if the ttl of the cache is missing or not positive |
| `CacheAside.OneLoaderPerKey` | src/mp_commons/resilience/cache/aside.py:36-51 | In every interleaving at most one coroutine per key is inside the loader, whatever loaders return or raise and whatever entries the cache drops |
| `CacheAside.OneValuePerKey` | src/mp_commons/resilience/cache/aside.py:36-51 | With a cache that keeps its entries, at most one loader call per key ever produces a value, and once it has, no loader runs for that key |
| `CacheAside.CallersAgree` | src/mp_commons/resilience/cache/aside.py:36-51 | With a cache that keeps its entries, every caller that returns a value returns the one value loaded for its key, which is also the cached one |
| `CacheLoads.ReturnsWhatWasLoaded` | src/mp_commons/resilience/cache/aside.py:36-51 | Evictions included, every caller returns only what a loader call for its key has returned |
| `CacheLoads.LoaderGetsItsValue` | src/mp_commons/resilience/cache/aside.py:49-51 | The caller whose loader returns gets that very value, and leaves it in the cache and the lock free |
| `CacheAside.LoadsOnceExactly` | src/mp_commons/resilience/cache/aside.py:44-51 | The loader succeeds at most once per key in every run, failed loads included, if and only if it never returns None and the cache keeps its entries |
| `CacheAside.NobodyIsStuck` | src/mp_commons/resilience/cache/aside.py:41-51 | No deadlock, evictions included: while a caller is unfinished, some caller of the same key can take a step |
| `CacheAside.RunKeepsLocking` | src/mp_commons/resilience/cache/aside.py:41-51 | In every run, evictions included, each lock is held exactly by the caller inside its block |
| `CacheAside.RunKeepsInv` | src/mp_commons/resilience/cache/aside.py:36-51 | In every run of a cache that keeps its entries, every loaded value is cached or about to be |
| `CacheAside.SoloCall` | src/mp_commons/resilience/cache/aside.py:36-51 | The protocol's steps of one undisturbed caller compute the outcome function of the class method, record the load and leave the lock free |
| `CacheAside.CacheAsidePolicy.Enter` | src/mp_commons/resilience/cache/aside.py:37-43 | The first lookup, and a new lock exactly for a missed key that has none |
| `CacheAside.CacheAsidePolicy.Locked` | src/mp_commons/resilience/cache/aside.py:44-51 | The locked block on whatever cache it finds: the second lookup decides, a load is stored, and the lock is free again, a raising loader included |
| `CacheAside.CacheAsidePolicy.GetOrLoad` | src/mp_commons/resilience/cache/aside.py:36-51 | A first hit returns at once and changes nothing; otherwise, however long the caller waited for the lock, result and cache are those of the outcome function on the cache at the moment it gets the lock, and the lock is free again afterwards |
| `RedisBreakers.KeysAreConsistent` | src/mp_commons/resilience/circuit_breaker/redis_breaker.py:56-86 | Under all interleavings of any number of clients: OPEN has its timestamp; a timestamp means not CLOSED and a counter at the limit; CLOSED means a counter below it |
| `RedisCounting.CountsFailuresSince` | src/mp_commons/resilience/circuit_breaker/redis_breaker.py:56-86 | In every run, while CLOSED the counter is the number of failures recorded since the latest success or reset |
| `RedisCounting.OpensExactlyAtLimit` | src/mp_commons/resilience/circuit_breaker/redis_breaker.py:56-65 | In every run, a failure opens a CLOSED breaker exactly when it is the failure_threshold-th (the first, below one) since the latest success or reset, and is its date |
| `RedisCounting.SuccessForgives` | src/mp_commons/resilience/circuit_breaker/redis_breaker.py:70-86 | After a success while CLOSED, n failures leave the breaker CLOSED exactly when n is below the limit |
| `RedisCounting.ChangesStateExactly` | src/mp_commons/resilience/circuit_breaker/redis_breaker.py:56-86 | A failure at the threshold opens, a success at the threshold closes HALF_OPEN, a reset closes, a promotion of an existing state makes HALF_OPEN, and no other step of any client changes the state; in particular a success while OPEN does not |
| `RedisCounting.DatesOpeningsExactly` | src/mp_commons/resilience/circuit_breaker/redis_breaker.py:56-86 | The recorded opening is that of the latest failure at the threshold, and only a closing or a reset erases it |
| `RedisCounting.ProbeLockEnds` | src/mp_commons/resilience/circuit_breaker/redis_breaker.py:158-165 | A probe lock that nobody deletes ends exactly when its ttl is over |
| `RedisBreakers.ProbeFailureReopens` | src/mp_commons/resilience/circuit_breaker/redis_breaker.py:56-65 | In every reachable HALF_OPEN that has its timestamp, a failure reopens the breaker in the same atomic script |
| `RedisBreakers.OverlappingProbes` | src/mp_commons/resilience/circuit_breaker/redis_breaker.py:158-177 | Two probes overlap only if the earlier one's lock had run out, or had been deleted, before the later one took it |
| `RedisBreakers.ProbesOverlap` | src/mp_commons/resilience/circuit_breaker/redis_breaker.py:230-244 | The documented single probe is not kept under any policy: there is a run in which the success of a call admitted earlier deletes the lock and two probes run at once, before any lock time has passed |
| `RedisBreakers.AdmitsExactly` | src/mp_commons/resilience/circuit_breaker/redis_breaker.py:143-213 | From every reachable state, a call by itself runs exactly if the breaker is CLOSED, or no probe lock is there and it is HALF_OPEN or the timeout is over; so OPEN is never stuck, and a call by itself is never early |
| `RedisQuietPeriod.AdmittedAsItReopens` | src/mp_commons/resilience/circuit_breaker/redis_breaker.py:193-213 | Under interleaving the quiet period is not kept: for every policy there is a run in which a client with an older decision is let through at the very moment of a new opening |
| `RedisQuietPeriod.QuietExactly` | src/mp_commons/resilience/circuit_breaker/redis_breaker.py:143-213 | With no client clock ahead, no admission of any run comes before the timeout since the recorded opening if and only if the timeout is not positive |
| `RedisQuietPeriod.PromptRunsAreQuiet` | src/mp_commons/resilience/circuit_breaker/redis_breaker.py:143-213 | In every run in which no client promotes or probes on a decision older than the latest opening, no call is admitted before the timeout since the recorded opening is over |
| `RedisBreakers.OneSuccessClosesExactly` | src/mp_commons/resilience/circuit_breaker/redis_breaker.py:70-86 | One success closes every HALF_OPEN reached from OPEN if and only if success_threshold <= max(1, failure_threshold) + 1, because the counter still holds the failures |
| `RedisBreakers.SuccessThresholdExactly` | src/mp_commons/resilience/circuit_breaker/redis_breaker.py:70-86 | success_threshold successes in a row, and no fewer, close a promoted breaker from every reachable OPEN state if and only if the threshold is at most one |
| `RedisBreakers.StalePromotion` | src/mp_commons/resilience/circuit_breaker/redis_breaker.py:193-213 | For every policy there is a run in which a late promotion turns a breaker that others have closed into HALF_OPEN without a timestamp and with counter 0 |
| `RedisBreakers.EveryProbeFailureReopensExactly` | src/mp_commons/resilience/circuit_breaker/redis_breaker.py:56-65 | Every failure in every reachable HALF_OPEN reopens if and only if failure_threshold <= 1 |
| `RedisBreakers.RedisKeys.RecordFailure` | src/mp_commons/resilience/circuit_breaker/redis_breaker.py:56-65 | The failure script in place: the keys become those of the specification, the answer is OPEN exactly at the threshold, and the key invariant is kept |
| `RedisBreakers.RedisKeys.RecordSuccess` | src/mp_commons/resilience/circuit_breaker/redis_breaker.py:70-86 | The success script in place: the keys become those of the specification, the answer is the resulting state, and the key invariant is kept |
| `RedisBreakers.RedisKeys.Reset` | src/mp_commons/resilience/circuit_breaker/redis_breaker.py:179-187 | reset deletes all four keys |
| `CircuitBreakers.OpensExactlyAtThreshold` | src/mp_commons/resilience/circuit_breaker/breaker.py:76-89 | For overlapping calls: a failure opens exactly when it is the failure_threshold-th (the first, for thresholds below one) counted since the latest opening, closing or success while CLOSED; while CLOSED, exactly when it is that one in a row completed while CLOSED; no count ever gets further |
| `CircuitBreakers.ClosesExactlyAtThreshold` | src/mp_commons/resilience/circuit_breaker/breaker.py:65-74 | HALF_OPEN turns CLOSED exactly on the success_threshold-th success (the first, for thresholds below one) since it was entered; the count never gets further |
| `CircuitBreakers.QuietPeriod` | src/mp_commons/resilience/circuit_breaker/breaker.py:37-63 | After any opening at T, by whatever call, no call is admitted before T + timeout |
| `CircuitBreakers.RejectsExactlyWhileOpen` | src/mp_commons/resilience/circuit_breaker/breaker.py:37-63 | A call is rejected exactly while OPEN and before the timeout since the latest opening is over, and an admission from OPEN makes it HALF_OPEN |
| `CircuitBreakers.ChangesStateExactly` | src/mp_commons/resilience/circuit_breaker/breaker.py:54-89 | In every run, exactly a failure at the threshold opens, a success at the threshold closes HALF_OPEN, and an admission after the timeout makes OPEN HALF_OPEN |
| `CircuitBreakers.ProbeFailureReopensExactly` | src/mp_commons/resilience/circuit_breaker/breaker.py:76-89 | Every failure in every reachable HALF_OPEN reopens the breaker if and only if failure_threshold <= 1 |
| `CircuitBreakers.RunKeepsInv` | src/mp_commons/resilience/circuit_breaker/breaker.py:35-89 | In every run the counters equal what the log of admissions and completions says and stay below their thresholds, and every opening lies a timeout back unless the breaker is still OPEN |
| `CircuitBreakers.CircuitBreaker.Enter` | src/mp_commons/resilience/circuit_breaker/breaker.py:37-63 | The locked admission section refines its specification and admits exactly when the state is not OPEN afterwards |
| `CircuitBreakers.CircuitBreaker.RecordSuccess` | src/mp_commons/resilience/circuit_breaker/breaker.py:65-74 | The object refines the success step |
| `CircuitBreakers.CircuitBreaker.RecordFailure` | src/mp_commons/resilience/circuit_breaker/breaker.py:76-89 | The object refines the failure step |
| `EventSourcing.SaveAppendsExactly` | src/mp_commons/application/event_sourcing/repository.py:85-109 | In every reachable state: if the stream is as long as version minus pending, a save puts exactly the pending events behind it, with their types and payloads and the next versions, and is recorded; otherwise no stream and no record changes; either way nothing is pending and no other aggregate changes |
| `EventSourcing.NoLostUpdate` | src/mp_commons/application/event_sourcing/repository.py:85-109 | In every run, a save of an aggregate that lost no events makes its stream grow exactly when it was rebuilt from the stream's entire current contents; and a save that makes it grow was based on the entire contents exactly when the aggregate lost no events |
| `EventSourcing.LoadSeesEverything` | src/mp_commons/application/event_sourcing/repository.py:72-83 | In every run, a load rebuilds a new aggregate from the whole stream, at its length, and gives none for an empty one |
| `EventSourcing.ReuseAfterConflict` | src/mp_commons/application/event_sourcing/repository.py:87-109 | A run in which an aggregate reused after a conflict passes the version check without having seen the other's event |
| `MongoRepositories.ReturnedSaveSawEverything` | src/mp_commons/application/event_sourcing/repository.py:72-109 | Over the interleaved Mongo store, with load, pull, count and each insert a step of its own: the history a successful save was based on is exactly the documents at positions 0..expected-1 if and only if every earlier save of that object succeeded and nobody else pulled its events |
| `MongoRepositories.PulledEventHidesUpdate` | src/mp_commons/kernel/ddd/aggregate.py:26-30 | A run over the Mongo store in which an object whose event somebody else pulled saves successfully without having seen an event of its stream |
| `MongoRepositories.ReuseHidesUpdate` | src/mp_commons/application/event_sourcing/repository.py:87-109 | A run over the Mongo store in which an object reused after a conflict, with no event pulled by others, does the same |
| `MongoRepositories.RepoRunKeepsInv` | src/mp_commons/application/event_sourcing/repository.py:72-109 | In every run each document an object takes for history either stands at its position or is due there by one of the object's own calls |
| `MongoRepositories.SaveStartsExactly` | src/mp_commons/application/event_sourcing/repository.py:85-109 | A save starts an append of exactly the pending events, in order, with their types and payloads, numbered on from version minus pending, and drains the aggregate |
| `MongoRepositories.LoadSeesEverything` | src/mp_commons/application/event_sourcing/repository.py:72-83 | In every run, a load rebuilds a new object from the whole stream, at its length |
| `EventSourcing.SavesAreDisjoint` | src/mp_commons/application/event_sourcing/repository.py:85-109 | No two saves succeed from the same prior version: ranges are disjoint and ordered, and each save's events stay in its range |
| `EventSourcing.StreamsAppendOnly` | src/mp_commons/application/event_sourcing/store.py:65-75 | In every run streams only grow and the i-th event carries version i |
| `EventSourcing.RunAppendOnly` | src/mp_commons/application/event_sourcing/store.py:65-75 | Over every continuation of every run each stream is extended at its end |
| `EventSourcing.Stored` | src/mp_commons/application/event_sourcing/repository.py:94-107 | The stored batch has one event per pending event, in order and with its type and payload, of this stream, numbered prior+1 onward |
| `EventSourcing.AfterSequential` | src/mp_commons/application/event_sourcing/store.py:77-83 | On a stream with consecutive versions, load(from_version=v) is the tail behind the first v events, all for negative v, none beyond the end |
| `EventSourcing.ReplayOne` | src/mp_commons/application/event_sourcing/repository.py:80-82 | Replaying one event applies it, and none changes nothing |
| `EventSourcing.ReplayConcat` | src/mp_commons/application/event_sourcing/repository.py:80-82 | Replaying two stretches one after the other is replaying them together, which with the one-event case fixes every replay |
| `EventSourcing.SnapshotReplay` | src/mp_commons/application/event_sourcing/repository.py:72-83 | For every reachable stream and every v up to its length, replaying the events after v on the state after the first v gives the state and the version of a full replay |
| `EventSourcing.SnapshotStaysValid` | src/mp_commons/application/event_sourcing/snapshot.py:46-54 | Through the snapshot store, in runs of saves and of takes of any version and bytes: if the latest take of a stream held the encoded state after some stored prefix, then at every later point the snapshot and the events loaded after its version rebuild the state and the version of a full replay |
| `EventSourcing.InMemoryEventStore.Append` | src/mp_commons/application/event_sourcing/store.py:65-75 | Appends behind the stream exactly when the length is the expected version; else the error carries the length and only an empty entry may be created |
| `EventSourcing.InMemoryEventStore.Load` | src/mp_commons/application/event_sourcing/store.py:77-83 | The loop returns the events at exactly the positions whose version is larger, in stream order, on any stream |
| `EventSourcing.AggregateRoot.RaiseEvent` | src/mp_commons/kernel/ddd/aggregate.py:21-24 | Adds the event behind the pending ones and bumps the version |
| `EventSourcing.AggregateRoot.PullEvents` | src/mp_commons/kernel/ddd/aggregate.py:26-30 | Returns the pending events and clears them, and leaves the version |
| `EventSourcing.EventSourcedRepository.Load` | src/mp_commons/application/event_sourcing/repository.py:72-83 | None exactly for an empty stream, else a new aggregate that applied every loaded event in order and has the last one's version |
| `EventSourcing.EventSourcedRepository.Save` | src/mp_commons/application/event_sourcing/repository.py:85-109 | Success exactly when the stream length is the aggregate's version minus its pending events; the stream gains exactly those events or stays; the pending events are gone either way |
| `Search.RepeatedSortsAreLexicographic` | src/mp_commons/application/search/service.py:70-74 | Stable sorts by the fields from last to first yield a permutation of the input, ordered lexicographically by the sort list with each direction, ties in input order |
| `Search.FirstDifferenceDecides` | src/mp_commons/application/search/service.py:70-74 | Of two items in a sorted list the first has the smaller value (the larger, if descending) in the first sort field in which they differ, numbers by size and strings by first difference; items that differ in none stand in input order; missing, None, 0 and the empty string count as the empty string |
| `Search.NumbersComeSorted` | src/mp_commons/application/search/service.py:70-74 | The whole result of a search by one field of non-zero numbers is non-decreasing, or non-increasing when descending |
| `Search.StringsComeSorted` | src/mp_commons/application/search/service.py:70-74 | The same for strings: equal, or a proper prefix, or smaller at the first difference |
| `Search.StrLessIsPrecedes` | src/mp_commons/application/search/service.py:70-74 | The string order is: a proper prefix, or a smaller character at the first difference |
| `Search.MixedIsTwoKinds` | src/mp_commons/application/search/service.py:71-74 | A sort raises exactly if some of the values it goes by are numbers and some strings |
| `Search.StableSortOrdered` | src/mp_commons/application/search/service.py:70-74 | One stable sort of a list ordered by the later fields is ordered by all of them |
| `Search.OrderIsUnique` | src/mp_commons/application/search/service.py:70-74 | That order leaves no choice: it determines the result from the set of matching items |
| `Search.StableSort` | src/mp_commons/application/search/service.py:71-74 | Sorting by one field keeps the multiset of positions |
| `Search.SortedExists` | src/mp_commons/application/search/service.py:57-74 | The filter and the repeated sorts produce exactly the matching positions in lexicographic order |
| `Search.OrderFiltersAgree` | src/mp_commons/application/search/service.py:32-46 | On a present value, gt, gte, lt and lte raise exactly for an operand of another type, and otherwise are the comparisons of one total order that eq and neq belong to |
| `Search.ComparisonsMean` | src/mp_commons/application/search/service.py:32-46 | On two numbers gt, gte, lt and lte compare value with operand in that direction, likewise on two strings; on a missing value they are false; eq and neq are equality |
| `Search.InMeans` | src/mp_commons/application/search/service.py:47-48 | in on a list is membership, on a string occurrence of the value in it, and otherwise raises |
| `Search.ContainsMeans` | src/mp_commons/application/search/service.py:49-50 | contains is occurrence of the operand in the text of the value, and raises for an operand that is not a string |
| `Search.TextMeans` | src/mp_commons/application/search/service.py:49-50 | The text of a value is empty for None and 0, the string itself, or the decimal digits of the number with its sign |
| `Search.FiltersAreAConjunction` | src/mp_commons/application/search/service.py:64-66 | An item passes exactly if every filter is true of it, and raises exactly if some filter does while all before it are true |
| `Search.KeepsExactly` | src/mp_commons/application/search/service.py:59-67 | An item is kept exactly if it passes the text search and every filter is true of it; one dropped by the text search is never filtered |
| `Search.InMemorySearchEngine.Filtered` | src/mp_commons/application/search/service.py:56-67 | The loop collects exactly the items that pass text search and filters, in input order, and raises exactly if the verdict on some item does |
| `Search.InMemorySearchEngine.Sort` | src/mp_commons/application/search/service.py:70-74 | The loop over the reversed sort list computes the repeated stable sorts, and fails exactly when some field has both numbers and strings among the results |
| `Search.InMemorySearchEngine.Search` | src/mp_commons/application/search/service.py:54-86 | The result is the requested page of the unique ordered list of matching items with its total, or the TypeError exactly when some filter raises or some sort field mixes numbers and strings |
| `Pagination.PagesPartition` | src/mp_commons/application/pagination/page.py:57-68 | Pages 1..total_pages in a row are the whole list, nothing repeated or dropped, for both ways of counting pages |
| `Pagination.WalkIsComplete` | src/mp_commons/application/search/result.py:22-30 | Following has_next from page 1 ends at the last page and meets the whole list exactly once if and only if the size is positive or the list is empty |
| `Pagination.LastVisitedIsLast` | src/mp_commons/application/search/result.py:28-30 | Following has_next from any page ends at the larger of that page and total_pages |
| `Pagination.TotalPagesIsLeast` | src/mp_commons/application/search/result.py:22-26 | total_pages is the least number of pages that covers the total |
| `Pagination.PageCountsAgree` | src/mp_commons/application/pagination/page.py:34-38 | The integer and the ceiling form of total_pages agree for every total and every size of at least one |
| `Pagination.FloorDivIsFloor` | src/mp_commons/application/search/result.py:26 | The division modelled is the floor for divisors of either sign |
| `Pagination.PySliceMeans` | src/mp_commons/application/pagination/page.py:60-65 | The slice modelled is Python's: cut off at the ends, negative bounds from the end |
| `TokenBuckets.RateIsBounded` | src/mp_commons/resilience/throttle/token_bucket.py:45-57 | In every run and every interval of length d, the tokens granted are at most capacity + refill_rate * d |
| `TokenBuckets.GrantsExactlyWhatConforms` | src/mp_commons/resilience/throttle/token_bucket.py:45-57 | The bound is also a promise: all requests of a run are granted if and only if between any two of them no more is asked for than capacity and inflow can pay |
| `TokenBuckets.TokensStayInBounds` | src/mp_commons/resilience/throttle/token_bucket.py:45-57 | Tokens stay within [0, capacity] in every run of non-negative requests |
| `TokenBuckets.BoundsExactly` | src/mp_commons/resilience/throttle/token_bucket.py:45-57 | The bounds hold in every run if and only if capacity, rate and the least request size are all non-negative |
| `TokenBuckets.RetryIsExact` | src/mp_commons/resilience/throttle/token_bucket.py:51-65 | After a refusal a retry of the same size succeeds exactly when retry_after_ms has elapsed and the size does not exceed the capacity |
| `TokenBuckets.RefusalsAreFree` | src/mp_commons/resilience/throttle/token_bucket.py:51-57 | A refused attempt of any size changes neither the verdict nor the effect of any later request |
| `TokenBuckets.RefillTwice` | src/mp_commons/resilience/throttle/token_bucket.py:45-49 | Two refills in a row are one |
| `TokenBuckets.TokenBucket.Acquire` | src/mp_commons/resilience/throttle/token_bucket.py:45-57 | The object refines the specification step and grants exactly when the refilled bucket has enough |
| `RateLimiters.LocalBound` | src/mp_commons/application/rate_limit/local.py:30-56 | In every run, at most 2 * limit - 1 requests are allowed in any half-open interval of window length, and none if limit < 1 or the window is not positive |
| `RateLimiters.LocalBoundIsTight` | src/mp_commons/application/rate_limit/local.py:30-56 | For every quota some run reaches that bound |
| `RateLimiters.AtMostLimitPerWindow` | src/mp_commons/application/rate_limit/local.py:33-49 | A window that opens at a request allows at most limit requests until it closes |
| `RateLimiters.RemainingIsHonest` | src/mp_commons/application/rate_limit/local.py:40-49 | Of the requests before reset_at that follow an allowed one, exactly the first `remaining` are allowed |
| `RateLimiters.ReopensAtReset` | src/mp_commons/application/rate_limit/local.py:33-49 | In every run, once the reset time of the latest verdict is reached a new window opens in full, however many requests were denied before |
| `RateLimiters.RedisBound` | src/mp_commons/adapters/redis/rate_limiter.py:17-35 | At most limit requests are allowed in any half-open interval of window length, in every run |
| `RateLimiters.RedisBoundIsTight` | src/mp_commons/adapters/redis/rate_limiter.py:17-35 | For every quota with a positive window some run reaches that bound |
| `RateLimiters.AllowsExactly` | src/mp_commons/adapters/redis/rate_limiter.py:17-35 | For a positive window, in every run, a request is allowed exactly when fewer than limit came before it since the latest pause longer than the window (at exactly the window, as the server decides) |
| `RateLimiters.PauseForgives` | src/mp_commons/adapters/redis/rate_limiter.py:17-35 | After a pause longer than the window a request is allowed exactly when limit >= 1, with remaining limit - 1 |
| `RateLimiters.RedisIsStricter` | src/mp_commons/adapters/redis/rate_limiter.py:17-35 | In every run, a request the Redis limiter allows would be allowed by a sliding-window limiter fed with the same requests |
| `RateLimiters.DenialsProlongTheBlock` | src/mp_commons/adapters/redis/rate_limiter.py:11-27 | For every quota with limit >= 1 and window > 0, a run whose last request a sliding window allows and the Redis limiter denies |
| `RateLimiters.SlidesExactly` | src/mp_commons/adapters/redis/rate_limiter.py:11-27 | The documented sliding window and the Redis limiter give the same verdicts in every run if and only if limit <= 0 or window <= 0 |
| `RateLimiters.BusyClientStarves` | src/mp_commons/adapters/redis/rate_limiter.py:21-27 | A client that never pauses for a whole window is allowed exactly its first limit requests, however long it goes on |
| `RateLimiters.LocalRateLimiter.Check` | src/mp_commons/application/rate_limit/local.py:30-56 | Verdict, remaining and reset time are those of the specification, a denied request stores nothing, and other keys are untouched |
| `RateLimiters.LocalRateLimiter.Reset` | src/mp_commons/application/rate_limit/local.py:58-59 | Removes the bucket of one key only |
| `RateLimiters.RedisRateLimiter.Check` | src/mp_commons/adapters/redis/rate_limiter.py:17-35 | Counts up or starts anew after expiry, renews the expiry on every request, allowed or not, and answers with the exact remaining count and its own time |
| `Sagas.SagaOrchestrator.Run` | src/mp_commons/application/saga/orchestrator.py:48-95 | Every run, with a store that may raise at any save, is the described one: outcome, final context, call log and persisted trace |
| `Sagas.RunsAreDetermined` | src/mp_commons/application/saga/orchestrator.py:48-95 | The description leaves no freedom: it fixes outcome, context, calls and trace |
| `Sagas.CompensatesExactlyTheCompleted` | src/mp_commons/application/saga/orchestrator.py:72-116 | When step k stops the run, actions 0..k were called once each and then exactly the steps whose action returned are compensated, each once, last first, whether or not compensations raise; only a store that cannot record COMPENSATING prevents it, and then nothing is compensated |
| `Sagas.StopsAtTheFirstFailure` | src/mp_commons/application/saga/orchestrator.py:67-72 | Every step before the one that stops the run returned and was saved, and that one did not or was not |
| `Sagas.FailedRunTold` | src/mp_commons/application/saga/orchestrator.py:72-116 | Given the contexts that the actions, the failing one included, and then the compensations leave one after the other: a failed saga ends in the last of them, and reports exactly the first compensation that raised |
| `Sagas.FailedTraceTold` | src/mp_commons/application/saga/orchestrator.py:64-92 | And its records are RUNNING with the context after each step, COMPENSATING with the one the failing action left, and the final state with the final context |
| `Sagas.CompletedRunTold` | src/mp_commons/application/saga/orchestrator.py:64-95 | A completed saga ends in the context of its last action, and its records carry the context after each step |
| `Sagas.BadMeansRaised` | src/mp_commons/application/saga/orchestrator.py:101-116 | The saga reports a compensation failure exactly when some compensation raised on the context it was given |
| `Sagas.FailureRestoresContext` | src/mp_commons/application/saga/orchestrator.py:72-116 | If failing actions change nothing and compensations invert their actions, a failed saga ends in its initial context |
| `Sagas.TraceIsWellShaped` | src/mp_commons/application/saga/orchestrator.py:64-94 | The persisted trace is RUNNING records from index 0, then COMPLETED, or COMPENSATING and FAILED or COMPENSATION_FAILED, with non-decreasing index, and its last record tells the outcome, step and context |
| `Sagas.SagaOrchestrator.Create` | src/mp_commons/application/saga/orchestrator.py:34-42 | An orchestrator is made exactly for a non-empty list of steps |
| `Sagas.SagaOrchestrator.Forward` | src/mp_commons/application/saga/orchestrator.py:64-71 | The forward loop stops at the first step whose action or save fails, with the context, calls and records of exactly the steps before it |
| `Sagas.SagaOrchestrator.Compensate` | src/mp_commons/application/saga/orchestrator.py:101-116 | The backward loop calls every compensation in reverse order on the running context and keeps the first error |
| `Sagas.SagaOrchestrator.TurnBack` | src/mp_commons/application/saga/orchestrator.py:72-92 | The except branch saves COMPENSATING, compensates, saves the final state and raises the matching error |
| `Deduplication.HandlerStartsAtMostOnce` | src/mp_commons/application/pipeline/middlewares.py:251-275 | In every interleaving of duplicate submissions the handler starts at most once per key |
| `Deduplication.DuplicatesGetTheOneResult` | src/mp_commons/application/pipeline/middlewares.py:251-275 | A submission that is over ran the handler itself, or got a conflict, or got the encoded result that the single run returned to its own submitter |
| `Deduplication.LookupAnswersExactly` | src/mp_commons/application/pipeline/middlewares.py:264-269 | In every run, a lookup finds nothing exactly while no handler of the key has started, the encoded result exactly once that submission has returned, and a conflict in between |
| `Deduplication.PutStartsExactly` | src/mp_commons/adapters/dynamodb/repository.py:268-295 | In every run, the put starts the handler exactly if no handler of the key has started, and is a conflict otherwise |
| `Deduplication.RunnerGetsItsResult` | src/mp_commons/application/pipeline/middlewares.py:273-275 | The submission whose handler returns gets that very result, stored in its encoded form |
| `Deduplication.EncodeIsInjective` | src/mp_commons/application/pipeline/middlewares.py:274 | Different results have different stored forms |
| `Deduplication.RaisedHandlerBlocksKey` | src/mp_commons/application/pipeline/middlewares.py:271-275 | Once a handler has raised, no submission of that key ever returns a result |
| `Deduplication.SoloSubmission` | src/mp_commons/application/pipeline/middlewares.py:264-275 | The protocol's steps of one undisturbed submission compute the outcome function of the class method |
| `Deduplication.DynamoDBIdempotencyStore.Save` | src/mp_commons/adapters/dynamodb/repository.py:268-295 | The conditional put stores a PROCESSING item exactly when the key is absent, else it is a conflict and nothing changes |
| `Deduplication.DynamoDBIdempotencyStore.Complete` | src/mp_commons/adapters/dynamodb/repository.py:297-305 | The item becomes COMPLETED with the response, others are untouched |
| `Deduplication.DeduplicationMiddleware.Handle` | src/mp_commons/application/pipeline/middlewares.py:258-275 | One undisturbed call: answer and items are those of the outcome function, and a request without a key passes through |
| `RedisLocks.TwoBelieversOnlyAfterTtl` | src/mp_commons/adapters/redis/lock.py:17-40 | Two objects both take themselves for the holder only if the earlier one's ttl had run out when the later one acquired, so at most one is still in time |
| `RedisLocks.ReleaseSparesOthers` | src/mp_commons/adapters/redis/lock.py:28-40 | A release never takes the key away from another object that holds it in time |
| `RedisLocks.KeyLivesForItsTtl` | src/mp_commons/adapters/redis/lock.py:17-26 | Without a release the key goes exactly when the ttl of its acquire is over |
| `RedisLocks.AcquireSucceedsExactlyWhenFree` | src/mp_commons/adapters/redis/lock.py:17-26 | An acquire succeeds exactly when the key is gone, which it is not while another object holds it in time |
| `RedisLocks.AcquireThenRelease` | src/mp_commons/adapters/redis/lock.py:17-40 | An undisturbed acquire and release leave the key free and the object without a token |
| `RedisLocks.RunKeepsInv` | src/mp_commons/adapters/redis/lock.py:17-40 | In every run with expiry a believer's token is in the key while its time lasts, and tokens are never shared |
| `RedisLocks.RedisLock.Acquire` | src/mp_commons/adapters/redis/lock.py:17-26 | SET NX PX: on success key and object carry the new token, else nothing changes |
| `RedisLocks.RedisLock.Release` | src/mp_commons/adapters/redis/lock.py:28-40 | The key is deleted exactly while it holds the object's own token, and the object forgets its token |

## Left out

- `QueueLimiter` and the other bulkheads: two counters with a bound, easy members; their behaviour under cancellation is asyncio's.
- Cancellation of coroutines, and errors of the Redis, MongoDB, DynamoDB or cache commands themselves.
- Float rounding, clocks that go back, replication and failover of the stores.
- Metadata, timestamps and byte payloads of stored events; a snapshot's state is a string.
- The text search, which lower-cases Unicode strings: `Search` takes its verdict as an arbitrary predicate on items. Values are None, integers or strings, and lists of them as operands of a filter; `suggest`, highlights and timings are not modelled.
- The `ValueError` checks of `PageRequest`, and cursor pages: `WalkIsComplete` instead covers every page size.
- JSON escapes in the stored result of a command: `Encode` wraps the result as it is. Expiry of idempotency keys.
- `ThrottlePolicy` and `RedisRateLimiter.reset`.
- `InboxProcessor`, `BackpressurePolicy` and `ConcurrencyLimiter`.
- Names of breakers, locks, sagas and their log messages; error objects carry the numbers and steps that matter.
- Whole `call`, `get_or_load`, `append` and submission bodies under interference are state machines on values; the classes hold the atomic sections and the calls seen from one caller, and the `Solo...` lemmas connect the two for the cache policy, the event store and the middleware.
- All other adapters, web frameworks, security, observability and kernel value types: plumbing, or facts that one branch shows.
- MongoEventStores.HistoryIsGapFree: only for calls whose batches carry versions expected+1 onward, as the repository builds them; the store does not check this itself.
- RedisLocks.TwoBelieversOnlyAfterTtl: an object that has sent its release no longer counts as a believer, and each object is used by one coroutine at a time.
- EventSourcing.EventSourcedRepository.Load: the state that replay builds is represented by the list of applied events; `SnapshotReplay` is about an arbitrary replay function.

Nothing was executed: everything stated here is proved about the model, not observed on the program.
