# Bookstore backend: a verified model of its protocols

The backend is an identity service over Postgres, Redis and Kafka. What is hard in it is a handful
of small protocols in which several requests, workers and crashes meet on shared tables and
expiring keys. This project models them in Dafny and proves what holds in every run.

Each protocol is a state machine: a `State`, an `Action` for every atomic effect (one SQL statement
or transaction commit, one Redis command, one local decision), `Enabled` and `Apply`. A run is any
sequence of enabled actions; crashes, lost replies, late background work and clock readings are
actions or action parameters. Theorems quantify over all runs. Beside each machine stands the code
itself, call by call, as a class whose methods change the same tables; a ghost copy of the machine
moves along, so a method proved to keep `Valid()` only ever reaches states the theorems speak about.
The methods take as parameters how each database, Redis or token step goes, and say what every
failure leaves behind; a command may be refused, or carried out with its answer lost. SQL statements and Redis commands are written once, as functions, and used by
both.

| files | protocol |
|---|---|
| `SessionTable`, `SessionMachine`, `SessionTheorems`, `AuthService` | refresh-token sessions with a Redis cache in front of Postgres |
| `IdempotencyKeys`, `IdempotencyMachine`, `IdempotencyTheorems`, `IdempotencyService` | HTTP idempotency over expiring records |
| `OutboxMachine`, `OutboxTheorems`, `OutboxDispatcher`, `OutboxEnvelope` | transactional outbox and its dispatch workers |
| `ConsumerRetry`, `ConsumerMachine`, `ConsumerLoop` | Kafka consumer group with manual commit |
| `Pipeline`, `Registration` | registration to deduplication, end to end |
| `Transactions` | flattened nested transactions, over any type of data |
| `RateLimit`, `Locks` | fixed-window counter and token-checked lock |
| `Addresses`, `AddressTheorems`, `AddressService` | the default-address rule under concurrent transactions |

`dafny verify dfyconfig.toml` checks the whole project.

## Where the code does less than one might expect

These are theorems, not remarks: each names the exact condition under which the code delivers.

- Logout and the profile revocations leave the cache alone, and the rotating transaction does not
  look at revocation again. A revoked session can be rotated once more, never twice
  (`RevokedRotatesAtMostOnce`, `LogoutLeavesALeak`), and from a time `t` on it can be rotated at all
  exactly when an image of its hash that is usable at `t` is cached or queued or a refresh has passed
  validation (`RotatedAgainExactlyWhenLeaking`).
- Executions of one idempotency key keep their distance exactly when CompletedTTL is at least
  InProgressTTL (`SpacedExactlyWhen`). A key has one execution at a time, and replays are faithful,
  exactly when handlers end within InProgressTTL (`AloneExactlyWhen`, `FaithfulExactlyWhen`): Complete
  has no owner token.
- An outbox row whose worker stopped, or whose claim was carried out with its answer lost, stays
  `publishing` for good (`HandedExactlyWhenHeld`).
  docs/tech/register_flow_docs.md:116 promises retries; no code re-claims such rows. `ClaimPending`
  writes the state `publishing`, which the CHECK of migrations/000007_create_outbox_event.up.sql:14
  omits; the model has the four states of the repository code.
- The Kafka writer sends again what was not acknowledged (internal/platform/kafka/producer.go:23), and
  `ProducerIdempotent` (internal/platform/kafka/config.go:51) is read nowhere. An event stands at one
  offset exactly when its one hand-off delivered one copy (`EventComesFromOneHandOff`,
  `ResendStandsTwice`); deduplication holds all the same (`RegistrationWonAtMostOnce`). It errs on the
  other side: an event whose mark was inserted with the answer lost is won by nobody
  (`WinnableExactlyWhenUnmarked`).
- The consumer starts at the end of the log when its group has no committed offset
  (internal/platform/kafka/consumer.go:56, although internal/platform/kafka/config.go:60 says
  "earliest"). A message can be passed over exactly when it is unsettled and, besides, the group has no
  offset yet or its offset or a member is past the message (`MissedExactlyWhenUnsecured`); a message that
  arrives now, exactly when the group has committed nothing yet (`ArrivalMissedExactlyWhenUncommitted`).
- A window-long span of the rate limiter lets up to 2 * limit - 1 requests through, and this many
  for some arrivals (`LessThanTwiceTheLimit`, `BoundIsReached`). The two limiters agree exactly when INCR
  and TTL are answered and, on a first hit, EXPIRE is too (`SameDecision`, `FirstHitDiffers`).
- A counter whose EXPIRE was lost never expires. Later requests are refused for good exactly when it has
  used up the limit and no EXPIRE is pending (`RefusedForGoodExactlyWhen`, `LostExpireSticks`).
- A lock key is free exactly when no handle stands for it and no SETNX whose answer was lost is within its
  TTL (`AcquiredExactlyWhenFree`); such a key nobody can release, and with a TTL of zero it is taken
  for good (`OrphanBlocksItsTTL`).
- An UPDATE or DELETE of an address that the database refuses, the unique violation of a lost race
  included, is reported as a missing address, as is one that finds no row
  (internal/modules/identity/infra/postgres/address_repo.go:137-149; `UpdateAddress`, `DeleteAddress`).

## Assumptions about the environment

Token hashing is injective and tokens, event ids and lock tokens are fresh, so a token is identified
with its hash and freshness is a condition on the action that mints it. The Redis server's clock does not
run backwards; application clocks in the session protocol are arbitrary, and the theorems that need a
lower bound on them name it. Transactions run at READ COMMITTED, the default of the pool. The Kafka
writer may deliver any number of copies of a message, at any time after its hand-off. Times and durations are
integers. Marshalling to JSON and back is the identity. A transaction whose commit reports an error
has not taken effect; a single statement or command may have. Lower-casing is idempotent and fixes the letters of `default` and `_`.

## Model

| member | source | states |
|---|---|---|
| SessionTheorems.RevokedRotatesAtMostOnce | internal/modules/identity/app/service/auth_service.go:271-401 | in every interleaving, two rotations of a row after its revocation have a Login on its device before the second |
| SessionTheorems.RotatedAgainExactlyWhenLeaking | internal/modules/identity/app/service/auth_service.go:277-364 | from any reachable state, and for refreshes that read the clock at `t` or later, a revoked row can still be rotated without a Login if and only if an image usable at `t` is cached or queued under its hash or a refresh is past validation |
| SessionTheorems.RotatableExactlyWhen | internal/modules/identity/app/service/auth_service.go:277-364 | the same for every row, revoked or not: rotatable from `t` on if and only if it is usable at `t` or leaks |
| SessionTheorems.LogoutLeavesALeak | internal/modules/identity/app/service/auth_service.go:399-401 | for every user and device, a run whose log is a Login, a Logout and then a rotation of the same row: the bound of one is reached |
| SessionTheorems.ExchangedAtMostOnce | internal/modules/identity/app/service/auth_service.go:344-364 | over any run no refresh-token hash is exchanged twice |
| SessionTheorems.OneHashPerDevice | migrations/000005_create_user_sesions_table.up.sql:20-23 | a (user, device) pair has at most one hash a rotation would find |
| SessionTheorems.RetiredForever | internal/modules/identity/app/service/auth_service.go:348-351 | a hash once installed and no longer held is never exchanged in any continuation, whatever the cache holds under it |
| SessionTheorems.CacheCoherence | internal/modules/identity/infra/adapters/redis_session_adapter.go:72-113 | what is cached or queued under a row's hash is the row when that hash was installed, up to revocation fields and updated_at; a revoked image means a revoked row |
| SessionTheorems.BarredForever | internal/modules/identity/app/service/auth_service.go:296-304 | a row not usable at `t` and without a leak is rotated by no schedule of refreshes from `t` on before the next Login on its device |
| SessionTheorems.BarredRefuses | internal/modules/identity/app/service/auth_service.go:280-304 | in every run from a state in which a row is barred, with refreshes from `t` on and before the next Login on its device, neither the cache path nor the database path accepts its hash |
| SessionMachine.StepKeepsInv | internal/modules/identity/infra/postgres/session_repo.go:24-86 | every action keeps the table constraints, cache coherence, lock exclusivity, the retirement of exchanged hashes and the rotation bound |
| SessionTable.RevokeEffect | internal/modules/identity/infra/postgres/session_repo.go:42-58 | which rows each revoking statement changes, by user, device, status and expiry, and to what; every other row stays |
| AuthService.Service.ReadAndValidate | internal/modules/identity/app/service/auth_service.go:277-304 | the cached image if Redis has it, else the row; accepted exactly when unrevoked, active and not past its expiry, revoked and expired refused each exactly when due |
| AuthService.Service.RefreshToken | internal/modules/identity/app/service/auth_service.go:271-397 | success exactly when the copy read is unrevoked, active and not past its expiry, every later step goes well and a row still holds the hash: that row is rotated, the old key purged, the new image queued; any failure changes nothing |
| AuthService.Service.Rotate | internal/modules/identity/app/service/auth_service.go:344-364 | the locked row gets hash, expiry and last-seen time only, and the queued image is that row; a failed update or commit changes nothing |
| AuthService.Service.Login | internal/modules/identity/app/service/auth_service.go:207-268 | the device has one row, active and unrevoked, good until now + ttl, equal to the returned session and cached, and the old token's entry is gone; when the upsert's answer is lost or only the access token fails, the row is installed and not cached |
| AuthService.Service.LoginLasts | internal/modules/identity/app/service/auth_service.go:228-304 | whether or not Redis has the session, a new token is accepted at `later` if and only if `later` is not past now + ttl |
| AuthService.Service.Logout | internal/modules/identity/app/service/auth_service.go:399-401 | revokes the active row of that user's device and changes no other row; not-found exactly when there is none; a lost answer is an error after the revocation |
| AuthService.Service.ChangePassword | internal/modules/identity/app/service/auth_service.go:413-482 | success exactly when every check and step succeeds, else no change; then the user's other active rows are revoked; on a quiet service with Redis up every other session unrevoked and unexpired at the start is barred for good, the caller's row and cached image kept |
| AuthService.Service.ResetPassword | internal/modules/identity/app/service/auth_service.go:519-584 | the token is consumed first, also when its answer is lost; success exactly when every step succeeds; all the user's sessions unrevoked and unexpired at the start are barred at any later time |
| AuthService.Service.ListActive | internal/modules/identity/infra/postgres/session_repo.go:149-171 | exactly the user's rows with revoked_at null and an expiry after the clock |
| AuthService.Service.HashesToDelete | internal/modules/identity/app/service/auth_service.go:437-444 | exactly the hashes of the listed sessions other than the one to keep |
| IdempotencyKeys.NormalizeScopeIdempotent | internal/platform/idempotency/key.go:13-22 | normalizing twice is normalizing once; the result has no colon and is not empty |
| IdempotencyKeys.NormalizeScopeIs | internal/platform/idempotency/key.go:13-22 | character by character: lower case, white space cut at the ends, an underscore for each blank, slash and colon left, `default` when nothing is |
| IdempotencyKeys.SameScopeExactlyWhen | internal/platform/idempotency/key.go:13-22 | scopes without white space at their ends are one scope if and only if they agree place by place up to case and kind of separator |
| IdempotencyKeys.TrimSpaceIs | internal/platform/idempotency/key.go:24-26 | trimming cuts white space at the ends, all of it, and nothing else |
| IdempotencyKeys.BuildKeyInjective | internal/platform/idempotency/key.go:24-30 | two requests share a record if and only if normalized scopes and trimmed keys agree, colons in keys included |
| IdempotencyKeys.BuildKeyIs | internal/platform/idempotency/key.go:28-30 | the key is the prefix, the scope, a colon and the trimmed key, in this order |
| IdempotencyKeys.BeginAndCompleteMeet | internal/platform/idempotency/service.go:45-46 | Begin, which normalizes first, and Complete, Release and Get name the same record |
| IdempotencyMachine.NewConfig | internal/platform/idempotency/service.go:24-32 | positive TTLs are kept, others replaced by 3 minutes and 24 hours |
| IdempotencyTheorems.SpacedExactlyWhen | internal/platform/idempotency/redis_store.go:35-114 | executions start InProgressTTL apart and none within CompletedTTL of a completion, in all runs, if and only if CompletedTTL is at least InProgressTTL |
| IdempotencyTheorems.OneExecutionPerKey | internal/platform/idempotency/service.go:57-69 | while executions end before their reservation expires, a key has at most one in flight |
| IdempotencyTheorems.AloneExactlyWhen | internal/platform/idempotency/service.go:57-69 | if executions end within d, a key has at most one in flight, in all runs, if and only if d is at most InProgressTTL |
| IdempotencyTheorems.FaithfulExactlyWhen | internal/platform/idempotency/service.go:72-101 | if executions end within d, every replay has hash and response of the latest execution of its key, in all runs, if and only if d is at most InProgressTTL |
| IdempotencyTheorems.OverrunReplaysForeignResponse | internal/platform/idempotency/redis_store.go:81-114 | a run in which an overrunning execution completes over a later reservation and its response is replayed to the other request |
| IdempotencyService.Service.ReserveKey | internal/platform/idempotency/redis_store.go:35-63 | a free key is reserved for InProgressTTL with a record of the request; on a live record mismatch, replay or conflict exactly by its hash and status; a lost answer leaves a reservation nobody works on, a record may expire before the GET |
| IdempotencyService.Service.Begin | internal/platform/idempotency/service.go:41-102 | a blank key is refused; otherwise mismatch, replay, conflict or the store's error on the record of the normalized key |
| IdempotencyService.Service.Complete | internal/platform/idempotency/redis_store.go:81-114 | the live record it finds gets status, time, response and CompletedTTL and keeps the rest, else nothing; an error exactly when GET or SET is not answered |
| IdempotencyService.Service.Serve | internal/platform/idempotency/middleware.go:27-109 | 400, 500, execution, replay of the recorded response, or 409 exactly for a live record of another hash or one still in progress; the record holds the response exactly when the handler ended in time and Redis carried out GET and SET |
| IdempotencyService.Service.ServeTwice | internal/platform/idempotency/middleware.go:66-109 | a repeat within CompletedTTL of an execution that ended in time gets its status, body and headers, or 409 under another hash |
| IdempotencyService.RunHandler | internal/platform/idempotency/middleware.go:95-105 | the recorded status, the writes one after the other, the first value of every header that has one; the body is what was sent |
| IdempotencyService.FlattenHeaders | internal/platform/idempotency/middleware.go:118-126 | the first value of every header that has one |
| OutboxTheorems.HandedAtMostOnce | internal/platform/outbox/dispatcher.go:28-72 | with any workers and crashes, a row is handed to Publish at most once |
| OutboxTheorems.MarksTellTheOutcome | internal/platform/outbox/postgres_repository.go:74-96 | published means Publish succeeded and the broker has the message, failed means it returned an error, pending means it was not called |
| OutboxTheorems.CopiesComeFromOneHandOff | internal/platform/kafka/producer.go:19-34 | a row's message stands in the topic as often as its one hand-off delivered it, and never without a hand-off |
| OutboxTheorems.StatesMoveForward | internal/platform/outbox/postgres_repository.go:40-96 | in any continuation a row stays, with its content, and its state never moves back |
| OutboxTheorems.NoRowLostOrDuplicated | internal/platform/outbox/postgres_repository.go:25-96 | the four states together hold exactly as many rows as were inserted |
| OutboxTheorems.HandedExactlyWhenHeld | internal/platform/outbox/postgres_repository.go:40-52 | a claimed row is handed over in some continuation if and only if a worker still holds it; otherwise it stays publishing in every continuation |
| OutboxDispatcher.Dispatcher.ClaimPending | internal/platform/outbox/postgres_repository.go:40-72 | claims the oldest min(limit, pending) pending rows, all of them once; a refused statement changes nothing, a lost answer leaves its rows claimed by nobody |
| OutboxDispatcher.Dispatcher.SelectPending | internal/platform/outbox/postgres_repository.go:45-49 | the selection has the right size and no unselected pending row is older |
| OutboxDispatcher.Dispatcher.DispatchOnce | internal/platform/outbox/dispatcher.go:28-72 | every claimed row is published once in order and marked with its outcome; the count is the number of batch rows published and known to be marked; a mark may be refused or its answer lost; nothing is published after a failed claim |
| OutboxDispatcher.DispatchIsRound | internal/platform/outbox/dispatcher.go:38-65 | a call of DispatchOnce takes exactly its batch out of the pending rows, whatever Publish and the marks return |
| OutboxDispatcher.Drains | internal/platform/outbox/dispatcher.go:26-39 | after k rounds exactly max(0, n - k * limit) of n pending rows remain |
| OutboxDispatcher.OldestFirst | internal/platform/outbox/postgres_repository.go:45-49 | rows of an earlier round are not younger than rows of a later one |
| OutboxEnvelope.Record | internal/platform/outbox/service.go:23-76 | the row of the event with its columns, or the error of marshalling or inserting it; the rest is stated by MetadataRecovers and MessageCarries |
| OutboxEnvelope.Publish | internal/platform/outbox/publisher.go:23-75 | the message of the stored envelope, under the id minted at Record and not the one NewEnvelope makes up |
| OutboxEnvelope.MessageCarries | internal/platform/outbox/publisher.go:23-75 | each field of the message, and its key, in terms of the recorded parameters |
| OutboxEnvelope.SameMessageExactlyWhen | internal/platform/outbox/publisher.go:37-75 | two recorded events are the same message if and only if they have one id and agree in all but the row's event key, a missing or empty aggregate id, and an actor number without an actor type |
| OutboxEnvelope.MetadataRecovers | internal/platform/outbox/service.go:46-60 | the metadata column gives back the three trace fields and is absent exactly when they are empty |
| ConsumerRetry.HandleWithRetry | internal/platform/kafka/consumer.go:137-171 | 1 to maxRetries + 1 calls, stopping at the first success or final error, the outcome of the last call, sleep backoff * k * (k - 1) / 2; no call and success for a negative maximum |
| ConsumerMachine.CommittedMeansSettled | internal/platform/kafka/consumer.go:70-134 | in every run each offset from the last blind join up to the committed offset was handled or a dead-letter publish attempted |
| ConsumerMachine.MissedExactlyWhenUnsecured | internal/platform/kafka/consumer.go:44-134 | from any reachable state a message of the log is passed over in some continuation if and only if it is unsettled and, besides, the group has no offset yet or its offset or a member is past the message |
| ConsumerMachine.ArrivalMissedExactlyWhenUncommitted | internal/platform/kafka/consumer.go:49-58 | a message that arrives now is passed over in some continuation if and only if the group has committed no offset |
| ConsumerMachine.NothingMissed | internal/platform/kafka/consumer.go:44-66 | runs in which no member joins a non-empty partition without a committed offset pass over nothing |
| ConsumerMachine.FirstJoinSkips | internal/platform/kafka/consumer.go:49-58 | a run that passes over the first message of a partition |
| ConsumerLoop.Consumer.Process | internal/platform/kafka/consumer.go:97-124 | a message counts as handled exactly when it parses and some allowed call succeeds |
| ConsumerLoop.Consumer.ConsumeOne | internal/platform/kafka/consumer.go:97-132 | the message is settled before the commit; a failed commit moves on with the old offset |
| ConsumerLoop.Consumer.Consume | internal/platform/kafka/consumer.go:70-134 | every message passed is settled as its fate demands, earlier settlements stay, the committed offset is that of the last accepted commit or unchanged |
| Pipeline.OneRowPerRegistration | internal/modules/identity/app/service/auth_service.go:109-132 | with registering transactions interleaved statement by statement and stopping anywhere, a user has exactly one credential and one user.registered row, and neither exists without the user |
| Pipeline.DecimalIs | internal/modules/identity/infra/adapters/outbox_event_publisher.go:39 | the aggregate id is the user id in base ten |
| Pipeline.WinsAtMostOnce | internal/platform/idempotency/processed_event_store.go:35-50 | over redeliveries and crashes a (consumer, event id) wins TryMarkProcessed at most once |
| Pipeline.RegistrationWonAtMostOnce | internal/platform/idempotency/processed_event_store.go:35-50 | end to end, over registrations, workers, resends, redeliveries and crashes: a consumer wins the user.registered event of a user at most once, and of nobody else |
| Pipeline.WinnableExactlyWhenUnmarked | internal/platform/idempotency/processed_event_store.go:35-50 | an event can still be won if and only if its mark is not there, so never after an INSERT whose answer was lost |
| Pipeline.EventComesFromOneHandOff | internal/platform/outbox/publisher.go:42-55 | an event in the partition has one outbox row and one hand-off, every message of it is that row's, and it stands at one offset if and only if that hand-off delivered one copy |
| Pipeline.ResendStandsTwice | internal/platform/kafka/producer.go:19-34 | the event of any row, a registration or another, can come to stand at two offsets |
| Registration.Platform.Register | internal/modules/identity/app/service/auth_service.go:69-139 | success, exactly when all steps succeed, adds one user, one credential and one pending row with the topic, key, event id, trace fields, idempotency key and payload of the registration; any error adds none; a lost race for the address is EmailAlreadyExists |
| Registration.Transact | internal/modules/identity/app/service/auth_service.go:109-132 | the registering callback in a transaction makes three writes or none: an instance of OutermostIsAtomic |
| Registration.PublishRegistration | internal/modules/identity/infra/adapters/outbox_event_publisher.go:29-73 | publishing that row sends payload, idempotency key and trace fields to notification.commands.v1 under the user's key and the minted id |
| Registration.Platform.TryProcessEvent | internal/platform/idempotency/service.go:129-142 | for any consumer and event id, true exactly for the answered call that inserts the mark; blank names and refused statements change nothing, a lost answer leaves the mark without a win |
| Transactions.OutermostIsAtomic | internal/platform/tx/tx.go:37-79 | an outermost transaction returns nil if and only if it begins, its callback succeeds, no statement was refused and the commit is accepted; then all writes made inside apply in order, else none, and which error is returned |
| Transactions.NestingIsFlattened | internal/platform/tx/tx.go:44-47 | removing inner transactions at any depth, inside swallowed errors too, changes nothing |
| Transactions.DoubleIsSingle | internal/platform/tx/tx.go:44-47 | Tx(Tx(p)) means Tx(p) |
| Transactions.RefusedStatementLosesAll | internal/platform/tx/tx.go:73-76 | swallowing the error of a refused statement does not save the transaction |
| Transactions.InTransaction | internal/platform/tx/context.go:28-33 | inside a transaction every statement goes to it: the pool's data do not move |
| Transactions.Database.WithinTransaction | internal/platform/tx/tx.go:37-79 | the begin, run, commit or roll back sequence has that meaning, failed rollbacks included; a nil callback or pool is refused first |
| RateLimit.LessThanTwiceTheLimit | internal/platform/httpx/ratelimit.go:24-59 | for every arrival sequence and late or lost EXPIRE, at most 2 * limit - 1 counted requests pass in a half-open span as long as the shortest window |
| RateLimit.BoundIsReached | internal/platform/httpx/ratelimit.go:37-42 | for every limit and every window of two or more ticks some arrivals reach that number |
| RateLimit.PerLife | internal/platform/redis/ratelimit.go:23-32 | one life of the counter lets at most limit requests through |
| RateLimit.RefusedForGoodExactlyWhen | internal/platform/httpx/ratelimit.go:40-42 | from any reachable state some continuation lets a further request through unless the counter has no expiry, no EXPIRE is pending and the limit is used up; then none does |
| RateLimit.LostExpireSticks | internal/platform/redis/ratelimit.go:28-31 | for every limit and window a lost EXPIRE leads to such a state |
| RateLimit.Limiter.Middleware | internal/platform/httpx/ratelimit.go:24-59 | fail-open exactly without an answer to INCR, which may have counted the request and then sends no EXPIRE; 429 exactly above the limit; the counted hit is one the bound speaks of |
| RateLimit.Limiter.Allow | internal/platform/redis/ratelimit.go:23-50 | the same count and decision with the time left; an unanswered INCR, EXPIRE or TTL is reported, whether or not it was carried out |
| RateLimit.Limiter.ResetCountsDown | internal/platform/redis/ratelimit.go:34-49 | ResetIn is the window on its first hit and less by the time waited later |
| RateLimit.SameDecision | internal/platform/redis/ratelimit.go:23-50 | over equal counters the two limiters count alike whatever fails, and agree if and only if INCR and TTL are answered and a first hit's EXPIRE is too |
| RateLimit.FirstHitDiffers | internal/platform/httpx/ratelimit.go:40-42 | a first hit whose EXPIRE fails passes the middleware and is an error to Allow |
| RateLimit.Limiter.Bounded | internal/platform/httpx/ratelimit.go:24-59 | after any calls of the two limiters the bound on a span holds of the requests they let through |
| Locks.MutualExclusion | internal/platform/redis/lock.go:31-41 | two SETNX that took one key, answered or not, are never both unreleased and within their TTL, so no two handles are |
| Locks.ReleaseExactlyWhenHeld | internal/platform/redis/lock.go:10-15 | a release deletes the key if and only if its handle still stands for it; otherwise it changes nothing, and never another holder's lock |
| Locks.AcquiredExactlyWhenFree | internal/platform/redis/lock.go:31-41 | the key is free if and only if no handle stands for it and no SETNX whose answer was lost is within its TTL |
| Locks.OrphanBlocksItsTTL | internal/platform/redis/lock.go:33-36 | in every continuation a key taken with the answer lost stays taken, with no handle, until its TTL, or for good without one |
| Locks.LostAnswerOrphans | internal/platform/redis/lock.go:31-36 | a lost answer takes any free key without a handle |
| Locks.Locker.Acquire | internal/platform/redis/lock.go:31-41 | not-acquired exactly on a live key; unavailable exactly without an answer, the key then taken or not |
| Locks.Locker.Release | internal/platform/redis/lock.go:43-55 | nil, not-held or unavailable exactly as the handle and the answer demand; a script that ran with its answer lost has deleted the lock |
| AddressTheorems.AtMostOneDefault | migrations/000006_create_address_table.up.sql:19-21 | under any interleaving of address operations a user has at most one default |
| AddressTheorems.CommitInstalls | internal/modules/identity/app/service/address_service.go:44-54 | a committed default request leaves the user with one default, a row it wrote |
| AddressTheorems.LostExactlyWhenResigned | internal/modules/identity/app/service/address_service.go:44-103 | a step leaves a user who has a default without one if and only if it deletes that row or commits the change of that row to be none |
| AddressTheorems.DefaultNeverLost | internal/modules/identity/app/service/address_service.go:44-87 | in every run in which the default row is neither deleted nor itself changed to be none, a user who has a default keeps having one, whatever else the user adds or edits |
| AddressTheorems.AbortedLeavesNoTrace | internal/modules/identity/app/service/address_service.go:44-54 | every run in which a transaction does not commit is a run without its steps, with the same committed rows |
| AddressTheorems.LoserRollsBackWhole | internal/modules/identity/app/service/address_service.go:44-54 | a transaction that violates the index commits nowhere in the run, and the committed rows are those of the run without it |
| AddressTheorems.SecondLosesTheRace | internal/modules/identity/infra/postgres/address_repo.go:65-69 | a request whose unset took its snapshot before another's new default was committed commits in no run in which that row stays the default |
| AddressTheorems.RaceCanBeLost | migrations/000006_create_address_table.up.sql:19-21 | a run in which one of two first defaults violates the index |
| AddressTheorems.OthersRowsUntouched | internal/modules/identity/app/service/address_service.go:59-103 | the rows of a user who does nothing are untouched by any run of the others |
| AddressService.Service.AddAddress | internal/modules/identity/app/service/address_service.go:28-57 | success exactly when every statement succeeds: the new row is there, a default is the user's only one, other rows keep their contents and other users theirs; else nothing changes |
| AddressService.Service.UpdateAddress | internal/modules/identity/app/service/address_service.go:59-92 | not-found and not-owned exactly when due, a row deleted meanwhile and a refused UPDATE included; success as for AddAddress; else nothing of it stays |
| AddressService.Service.DeleteAddress | internal/modules/identity/app/service/address_service.go:94-103 | removes the owner's row only; a refused or unanswered DELETE is reported as a missing row, the row then kept or gone |

## Left out

- Order, payment, inventory and audit modules: empty packages.
- The cap of five devices: `GetByFingerprint` returns an empty device instead of none (internal/modules/identity/infra/postgres/device_repo.go:81-83), so the check never fires and the cap is no invariant.
- JWT, bcrypt, SHA-256, UUID generation, JSON and SQL text: foreign; tables and cache values are records and each statement one table operation.
- The verification token that Register issues in Redis inside its transaction: a rollback does not take it back.
- VerifyEmail, ForgotPassword and the expiry of verification and reset tokens: a single GETDEL each; only the consumption of the reset token is modelled.
- Lookups of users, credentials and devices inside Login before the session is touched: they can only refuse, and a refusal changes no session.
- ReleaseHTTP: no code calls it; a release in the middle of an execution would end the spacing of executions, so it is not an action of the protocol.
- Several partitions: the pipeline has one partition of one topic. The message key is modelled, the choice of a partition by it is not.
- DLQ storage: a dead-letter publish is attempted and its error discarded (internal/platform/kafka/consumer.go:105, 123), so nothing is claimed about what the DLQ holds.
- Negative lock TTLs and Redis eviction of idempotency, rate-limit and lock keys: not modelled. Session cache entries may vanish at any time.
- Address columns other than owner and default flag: one `content` field.
- Gin routing, CORS, logging, configuration, health checks, dependency wiring: no protocol.
