# Verified model of NEXUS-DISPATCH

A Dafny model of the coordination core of a ride-dispatch backend: the driver lease protocol kept in Redis, the cell
index of driver positions and the search over it, the dispatch loop with its retrying consumer, the token-bucket rate
limiter, batch location ingestion and the WebSocket hub. `dafny verify dfyconfig.toml` checks the whole project.

| file | models |
|---|---|
| `LeaseValues.dfy` | the lease string `ride:token:version` and its parser |
| `RedisLeases.dfy` | the reserve and release scripts, `Store`, `Manager`, `Reservation` |
| `DriverMachine.dfy` | the driver availability machine and the driver service's writers |
| `LeaseRuns.dfy` | any number of managers on one Redis: steps, runs, the invariant, mutual exclusion |
| `LeaseTheorems.dfy` | stale holders, races, lease/state coupling, recovery |
| `LeaseHold.dfy` | renewal loops along runs: the hold they keep, its exact bound, loops that nobody stops |
| `PipelineRuns.dfy` | dispatches in flight, each with what its one search saw, and the fate of a crashed holder's driver |
| `MachineRuns.dfy` | the driver machine along runs, and status updates split into a read and a write |
| `TokenBucket.dfy` | the rate limiter, its windows, key expiry |
| `LocationIndex.dfy` | the location script, registration, expiry, sequence guards |
| `HexGrid.dfy` | ring sizing on an ideal hexagon plane |
| `NearbySearch.dfy`, `SearchTheorems.dfy` | the nearby search and its agreement with a full scan |
| `Dispatch.dfy` | scoring, ranking, reserve-in-order, handler, retrying consumer |
| `BatchIngest.dfy` | sequence stamping and batch counting |
| `Hub.dfy` | the hub loop and its bounded send queues |

How the system is rendered:

- Redis is a value (`Db`, `Index`, `Bucket`) that the scripts map to a new value; each script is one atomic step. The
  classes do the same work imperatively, field by field, and are proved equal to those functions.
- Time is whole milliseconds of the Redis clock. A key with a TTL exists strictly before its expiry time. `SET ... EX`
  with less than one second is an error raised before anything is written.
- Concurrency is interleaving: a run is any sequence of steps of any number of managers, renewal loops, dispatches in
  flight, failed calls, crashes, clock ticks and driver-service writes. What a holder believes (`grantedUntil`) is
  computed from its own replies, never read from Redis.
- Random tokens, H3 cells, distances, search results, replies of a busy Redis and cancellation are parameters or
  arbitrary choices. Tokens are free of `:` (they are hex), and two managers never draw the same one.
- Scores, distances and tokens of the bucket are exact reals.

Where the code and its own text disagree the model follows the code:

- The renewal loop ends only on an error; its comment says a lost lease ends it. `StaleHoldersHarmless` shows that such
  a loop changes nothing while another lease lives. But the dispatch handler keeps no reference to the reservation it
  won (`internal/dispatchsvc/service.go:100-113`), so the loop goes on until its context ends or a renewal fails:
  `ForgottenLoopReturns` shows that its first tick on an unleased driver in service takes the driver back for the old
  ride, and `ServiceReleaseDoesNotFree` that a driver put back to AVAILABLE by the driver service refuses every
  reservation for as long as the loop ticks.
- The lease TTL is cut to whole seconds. `HoldIffWholeSecondTtl` is about that number, not about the configured one.
- ADR-006 says a crashed holder's driver becomes reservable when the lease expires. `Recovery` proves that for
  `Store.Reserve`. The dispatch pipeline reserves only what its search saw AVAILABLE, and `HealableIff` gives the exact
  condition under which it gets there: some dispatch in flight listed the driver before it was taken and has yet to try
  it. Otherwise `UnlistedStaysHidden`: no dispatch ever reserves it again.
- A status update reads and writes in two calls. `SplitSafeIff` says which targets stay on the machine under every
  interleaving: AVAILABLE and OFFLINE, and no others.
- The bucket's key expires after two minutes, which forgets what was taken. `RateBoundIff` says when the promised rate
  survives that: exactly when two minutes refill the whole bucket.
- The ring is `max(1, ceil(R/400))` without the `+1` of the file header. `RingCoversIff` gives the exact condition under
  which it still covers: hexagons larger than 400 m. It is not always the minimum ring its comment promises:
  `RingMinimumIff` says exactly when it is, and `FarRingNeverMinimum` that it never is above 1200 m.
- The guard meant to skip drivers without a position never fires, because HMGET always returns three slots; the type
  assertion after it panics. `PanicsIff` gives the exact condition, and where the search does not panic it is a full scan.

## Model

| member | source | states |
|---|---|---|
| LeaseValues.RoundTrip | internal/redis/keys.go:76-94 | parsing undoes formatting if and only if ride id and token are free of ':'; otherwise parsing fails, for every 64-bit version |
| LeaseValues.ParseIff | internal/redis/keys.go:80-94 | a string parses to a lease if and only if it is its ride and token, free of ':', and a nonempty run of digits of at most 64 bits with the lease's version as value |
| LeaseValues.EncodeInjective | internal/redis/keys.go:63-78 | with ':'-free tokens, equal lease strings mean equal leases, whatever the ride ids, so the scripts' string comparison is lease equality |
| LeaseValues.ColonInTokenCollides | internal/redis/keys.go:82-83 | the ':'-free token condition is needed: two different leases with one string |
| RedisLeases.WholeSeconds | internal/redis/store.go:220 | the TTL sent to Redis is the duration truncated toward zero to whole seconds, also for negative durations |
| RedisLeases.ReserveReplies | internal/redis/scripts.go:53-75 | for every state, lease value and TTL: Conflict if and only if another value's lease lives, NotAvailable if and only if none lives and the driver is neither AVAILABLE nor RESERVED, StoreError if and only if a grant was due below one second; only Reserved writes, and a renewal keeps state and ride |
| RedisLeases.ReleaseReplies | internal/redis/scripts.go:85-93 | true if and only if the very lease lives; then the key is gone and the target state written; otherwise nothing changes |
| RedisLeases.Store.Reserve | internal/redis/store.go:216-232 | the step-by-step script equals the reserve specification: conflict, re-entrant renewal, self-heal of RESERVED, not available, TTL error; a call Redis does not answer is an error that changes nothing |
| RedisLeases.Store.Release | internal/redis/store.go:237-246 | compare-and-delete: only a live, equal lease value is deleted and the target state written; a failed call is an error that changes nothing |
| RedisLeases.Store.SetState | internal/redis/store.go:65-67 | writes the state field of one driver and nothing else |
| RedisLeases.Manager.Reserve | internal/reservation/manager.go:81-109 | without a token nothing happens but an error; with one, bumps the 64-bit counter, reserves under the new lease, and yields a renewing reservation exactly on a Reserved reply |
| RedisLeases.Reservation.RenewTick | internal/reservation/manager.go:114-130 | one loop iteration: re-enters the reserve script; an error, of the script or of the connection, stops the loop and nothing else does |
| RedisLeases.Reservation.Release | internal/reservation/manager.go:58-73 | stops the loop and compare-and-deletes its own lease; reports exactly the failed calls, which leave the lease in place |
| LeaseRuns.FreshValue | internal/reservation/manager.go:86-90 | a new lease differs, also as a string, from every lease granted before: by the counter within a manager, by the token across managers |
| LeaseRuns.RunKeepsInv | internal/reservation/manager.go:1-15 | along every run, every holder that believes in its grant owns the live Redis key with exactly the expiry it computed, and leases are pairwise distinct |
| LeaseRuns.MutualExclusion | internal/reservation/manager.go:5-15 | no double booking: in every run, at every instant, at most one reservation per driver is granted, unexpired and unreleased |
| LeaseTheorems.WinnerIsSole | internal/reservation/manager.go:91-106 | at the instant a new lease is granted no other holder of that driver is active, before or after, and the winner is |
| LeaseTheorems.RaceHasOneWinner | tests/integration/redis_store_test.go:27-103 | any number of managers racing for a free driver produce exactly one holder, the first script to run, and the others leave no trace |
| LeaseTheorems.StaleHoldersHarmless | internal/redis/scripts.go:54-61 | while one holder's lease lives, no reserve, renew, release, crash or tick of anybody else changes the lease, its expiry, the state or the ride |
| LeaseTheorems.LeaseStateCoupling | internal/redis/scripts.go:62-75 | a live lease means RESERVED with the ride of that very lease; RESERVED without a live lease means a lease has run out |
| LeaseTheorems.Recovery | internal/redis/scripts.go:63-68 | a driver that started AVAILABLE grants any fresh reserve if and only if no lease is live, and conflicts otherwise, after every run of scripts, expiries and crashes |
| PipelineRuns.RunKeepsPipeInv | internal/dispatch/engine.go:103-175 | the lease invariant holds along every run of searches, tries, cancellations and environment steps |
| PipelineRuns.TryGoesOnIff | internal/dispatch/engine.go:141-168 | after an attempt a dispatch goes on, with one driver less and nothing changed, if and only if somebody else's lease lives on that driver |
| PipelineRuns.UnavailableEndsDispatch | internal/dispatch/engine.go:165-168 | a driver that is OFFLINE, PAUSED, ON_TRIP or unknown when its turn comes ends the dispatch: in every later run no further driver of that list is tried |
| PipelineRuns.ListedMayLeaveService | internal/dispatch/engine.go:115-142 | every listed driver may pause or sign off between the search and its turn |
| PipelineRuns.CrashEndsItsDispatches | internal/dispatch/engine.go:103-175 | a crash ends exactly the dispatches of the crashed manager |
| PipelineRuns.UnlistedStaysHidden | internal/redis/store.go:161-164 | a RESERVED driver whose lease ran out, with no renewal loop and in no dispatch's remaining list, stays so in every run without a driver-service write on it |
| PipelineRuns.HealableIff | internal/dispatch/engine.go:115-142 | dispatch can bring a crashed holder's driver back under a live lease if and only if some dispatch in flight has listed it and not tried it yet; the healing run is constructed for every position in every list |
| PipelineRuns.ListedWhileAbandoned | internal/dispatch/engine.go:115-142 | that case is reachable: two dispatches list one driver, the quicker takes it, crashes, and the lease runs out |
| LeaseHold.ContinuousHold | internal/reservation/manager.go:111-130 | if renewal attempts come at most a gap apart, whatever their replies, and the gap is below the whole-second TTL, then along every run every attempt is granted, the holder stays active, and every rival gets Conflict with nothing changed |
| LeaseHold.HoldIffWholeSecondTtl | internal/redis/store.go:216-221 | that bound is exact: the holder stays active with all renewals granted in every punctual run if and only if the gap is below the configured TTL without its fraction of a second |
| LeaseHold.LateLoopIsOvertaken | internal/redis/scripts.go:54-75 | at or above the bound a rival can take the driver between two punctual attempts, and the second one gets Conflict |
| LeaseHold.ReleaseIsFinal | internal/reservation/manager.go:56-73 | after a release, in every later run, the holder is never active, its loop never ticks, and releasing again releases nothing and changes nothing |
| LeaseHold.ForgottenLoopReturns | internal/dispatchsvc/service.go:100-113 | after any run that leaves the loop alone, its next tick makes the holder active if and only if no other lease lives and the driver is in service or still its own; on an unleased driver it writes RESERVED with the old ride |
| LeaseHold.ServiceReleaseDoesNotFree | internal/driver/service.go:176-183 | after ReleaseDriver and any number of loop ticks the driver reads AVAILABLE, and a reserve by any manager changes nothing and yields no reservation |
| MachineRuns.WritersObeyMachine | internal/driver/state.go:23-45 | at every position of every run, a whole writer or a bare write of AVAILABLE or OFFLINE moves a driver along an edge of the machine, and ON_TRIP is entered only from RESERVED |
| MachineRuns.SplitSafeIff | internal/driver/service.go:125-138 | a read-then-write update stays on the machine under every interleaving of whole writers if and only if its target is AVAILABLE or OFFLINE, as that of ReleaseDriver is |
| MachineRuns.OvertakenUpdateBreaks | internal/driver/service.go:125-138 | for each other target a run from an empty Redis whose split write leaves the machine |
| MachineRuns.SplitStatusUpdateBreaksMachine | internal/reservation/manager.go:58-73 | a holder's release between the read and the write makes an update to ON_TRIP leave AVAILABLE |
| DriverMachine.EnteredFrom | internal/driver/state.go:30-56 | the transitions by target: AVAILABLE and OFFLINE from everywhere, PAUSED from all but ON_TRIP, RESERVED from AVAILABLE, ON_TRIP from RESERVED, and staying |
| DriverMachine.DriverService.RegisterDriver | internal/driver/service.go:54-71 | registration writes AVAILABLE, or OFFLINE without a position, and fails without writing when the position has no cell |
| DriverMachine.DriverService.UpdateDriverStatus | internal/driver/service.go:120-138 | writes the target exactly when the driver is known and the transition is legal |
| DriverMachine.DriverService.ReleaseDriver | internal/driver/service.go:176-183 | returns a RESERVED or ON_TRIP driver to AVAILABLE and refuses all others |
| TokenBucket.RateLimiter.RateAllow | internal/redis/scripts.go:102-123 | one call on one key: refill, cap, take or deny, store with the two-minute expiry, other keys untouched |
| TokenBucket.ForeverIffEveryWindowFits | internal/redis/scripts.go:107-121 | the reference: a bucket whose key never expires admits a call if and only if no window of calls ending at it would exceed capacity plus inflow, for any clock, capacity and refill |
| TokenBucket.InflowIsRefillTimesWaited | internal/redis/scripts.go:114-115 | the inflow of a window is refill times the sum of the clock's positive increments in it, backward jumps counting nothing |
| TokenBucket.NoRefillWithoutProgress | internal/redis/scripts.go:114-120 | a call whose clock is not later than the previous call's is admitted if and only if what that call left covers it, for every limit and history |
| TokenBucket.RateBoundIff | internal/redis/store.go:266-271 | the code's bucket, whose key expires after 120 s, grants at most capacity + refill times the sum of positive clock increments on every window of every run if and only if capacity is at most 120 seconds of refill; exactly then it also decides by windows as the reference does |
| TokenBucket.RateBoundWithinStretch | internal/redis/scripts.go:95-122 | for every capacity and refill that rate holds on windows in which no two consecutive calls are 120 s apart |
| TokenBucket.WaitedIsElapsed | internal/redis/scripts.go:114 | with a non-decreasing clock the positive increments sum to the elapsed time |
| TokenBucket.LoneCallerServed | internal/redis/scripts.go:114-120 | after any history, with or without key expiry, a caller asking at most the capacity after requested/refill seconds is served |
| TokenBucket.ExpiryInvisibleIff | internal/redis/store.go:266-271 | expiring idle buckets changes no answer of any run if and only if capacity is at most 120 seconds of refill |
| LocationIndex.LocationStore.InitDriver | internal/redis/store.go:44-61 | writes position with sequence 0, joins the new cell and the geo set, keeps the guard, does nothing on a cell error |
| LocationIndex.LocationStore.ApplyLocation | internal/redis/store.go:81-106 | reading the old cell and then the script equals one serialised update step, with its applied/rejected/error answer |
| LocationIndex.RegistrationRecords | internal/redis/store.go:44-61 | a registration, first or repeated, records the new point with its cell, sequence 0 and time, sets the geo entry, joins the new cell beside its old ones, keeps the guard and touches no other driver; without a cell nothing changes |
| LocationIndex.LatestIsOnRecord | internal/redis/scripts.go:27-41 | along every run the position on record is that of the later of the driver's last registration and its last applied update, or what was there before |
| LocationIndex.IndexNeverLosesDriver | internal/redis/scripts.go:27-41 | after every run with arbitrarily stale reads, re-registrations and expiries, each recorded position is in its own cell's set and in the geo index |
| LocationIndex.MembershipAfterUpdate | internal/redis/scripts.go:35-38 | an update leaves exactly the cell it was told about; a driver ends in one cell if and only if it was in no third one |
| LocationIndex.SerialisedRunsKeepOneCell | internal/redis/store.go:81-106 | in serialised runs without expiry or re-registration a driver is in its recorded cell's set and in no other |
| LocationIndex.StaleReadLeavesGhost | internal/redis/store.go:82 | two overlapping updates with the same stale read leave the driver in a cell it has left |
| LocationIndex.NewestWins | internal/redis/scripts.go:28-33 | after any run of updates the guard is the largest sequence seen and the record is that update's or untouched |
| LocationIndex.OrderIndependent | internal/redis/scripts.go:28-40 | two delivery orders of the same updates, with repetitions and different stale reads, give the same record of every driver |
| LocationIndex.AppliedStrictlyIncreasing | internal/redis/scripts.go:28-32 | applied sequences rise strictly above the stored guard, across re-registrations and expired positions |
| HexGrid.InsideIffNearest | internal/geospatial/h3.go:30-38 | the hexagon of a cell is exactly the set of points no other centre is nearer to |
| HexGrid.DiskIffGridNorm | internal/geospatial/h3.go:53-72 | k hops between neighbours reach exactly the cells of grid distance at most k |
| HexGrid.DiskSize | internal/geospatial/h3.go:53-54 | the disk of k hops has 3k(k+1) + 1 cells, for every k |
| HexGrid.RingForRadius | internal/geospatial/h3.go:77-85 | the least k of at least 1 with 400 k not below the radius |
| HexGrid.RingCoversIff | internal/geospatial/h3.go:74-85 | for every radius and every point of the origin cell nothing is missed, if and only if hexagons have a circumradius above 400 m |
| HexGrid.CoversIff | internal/geospatial/h3.go:53-85 | j hops cover a radius if and only if it is below the exact distance of the nearest corners j + 1 hops apart, for every hexagon size |
| HexGrid.RingMinimumIff | internal/geospatial/h3.go:74-85 | the planned ring is the least that covers if and only if the radius is below the corner distance one hop out and the ring is one hop or the radius reaches the corner distance of its own hop count |
| HexGrid.FarRingNeverMinimum | internal/geospatial/h3.go:74-85 | above 1200 m, with hexagons above 400 m, the planned ring is never the least |
| NearbySearch.InsertionSort | internal/redis/store.go:179-184 | the in-place swaps produce the insertion-sort specification of the old contents |
| NearbySearch.SearchNearby | internal/redis/store.go:137-186 | the nested loops with their seen set equal the specification: plan, first visits, filter, panic, sort |
| SearchTheorems.SortAscends | internal/redis/store.go:179-184 | the result is ascending by distance and has the same entries |
| SearchTheorems.SortPermutes | internal/redis/store.go:179-184 | the result is a permutation of the input |
| SearchTheorems.SortKeepsTies | internal/redis/store.go:181 | entries at equal distance keep their order |
| SearchTheorems.StableSortUnique | internal/redis/store.go:179-184 | ascending order and order of ties determine the list |
| SearchTheorems.IndexRefinesScan | internal/redis/store.go:130-186 | when the plan covers the radius, a search that does not panic returns exactly the drivers of a full scan, each once, with its own data, by distance, ties as visited |
| SearchTheorems.PanicsIff | internal/redis/store.go:154-165 | the search panics if and only if a planned cell lists an AVAILABLE driver without a position hash |
| SearchTheorems.SearchReportsPlan | internal/redis/store.go:137-141 | planning fails if and only if the pickup has no cell or no disk; otherwise the reported count is the number of planned cells |
| SearchTheorems.ExpiredPositionPanics | internal/redis/store.go:56-57 | registering and waiting for the position to expire is enough to reach that panic |
| SearchTheorems.PlanarPlanCovers | internal/geospatial/h3.go:122-134 | on the ideal plane with hexagons above 400 m every plan covers its radius |
| SearchTheorems.PlanarSearchIsScan | internal/redis/store.go:130-186 | end to end: after any run of the index, on that plane, a search panics or is a full scan |
| SearchTheorems.CellsScanned | internal/redis/store.go:134-136 | on that plane a search scans 3k(k+1) + 1 cells for its ring k, whatever the fleet |
| Dispatch.ScoreDifference | internal/dispatch/engine.go:177-192 | scores differ by wDistance per metre, wRequestAge per second and minus wRating per rating point, a rating of at most 0 reading as 5, and a perfect driver on the spot scores 0 |
| Dispatch.CheaperIff | internal/dispatch/engine.go:134-192 | one result ranks strictly before another if and only if wDistance times the difference in metres is below wRating times the difference in ratings |
| Dispatch.UnsetConfig | internal/dispatch/engine.go:38-49 | with a cap of at most 0 the defaults replace everything: ten attempts, 1000 m, 50 m per rating point; otherwise the configuration is used as given |
| Dispatch.ScoreOrder | internal/dispatch/engine.go:177-192 | nearer wins at equal rating, better rated wins at equal distance, better on both never loses |
| Dispatch.RankingIgnoresAge | internal/dispatch/engine.go:252-264 | the rankings of a search result at one request age are, with all scores moved by one amount, exactly the rankings at any other |
| Dispatch.FindCandidates | internal/dispatch/engine.go:252-264 | shows the front of a list that, at any age, is a ranking DispatchForRide may use for the same search result; passes an error on |
| Dispatch.PrefixIsBest | internal/dispatch/engine.go:132-141 | whatever prefix of a ranking was tried, all strictly better candidates were tried before, and nothing untried beats anything tried |
| Dispatch.ScoreCandidates | internal/dispatch/engine.go:183-204 | one scored candidate per search result, in order |
| Dispatch.SortByScore | internal/dispatch/engine.go:134 | some ascending permutation; nothing about ties |
| Dispatch.DispatchForRide | internal/dispatch/engine.go:103-175 | searches once, at the default radius when none is given, and acts on that answer; attempts are the front of a ranking, all conflicts but the last; success exactly on a Reserved last reply; failure only after another reply, the end of the list or the cap |
| Dispatch.DispatchTakesBest | internal/dispatch/engine.go:132-168 | every search result cheaper than the last driver tried, the winner included, was tried before it and got Conflict |
| Dispatch.HandleRideRequested | internal/dispatchsvc/service.go:93-113 | an undecodable message is dropped without a trace; every other one is searched and dispatched exactly once as DispatchForRide promises, and retried exactly after all conflicts |
| Dispatch.Process | internal/kafka/kafka.go:224-257 | one dispatch per call, all but the last ending in conflicts, an uncancelled wait between any two; the last outcome, exhaustion or a cancelled wait ends the delivery; committed exactly after success, sent to the dead-letter topic exactly on exhaustion when there is one |
| Dispatch.DeliveryWinsOnce | internal/kafka/kafka.go:224-257 | a delivery with all its retries wins exactly one lease if it ends in a dispatch and none otherwise |
| BatchIngest.LocationService.Apply | internal/location/service.go:67-91 | accepts exactly valid updates whose stamped sequence beats the driver's guard, and then records the position under that sequence; stamps only admitted updates without a sequence; a rejection changes nothing in the index |
| BatchIngest.LocationService.BatchUpdateLocation | internal/location/service.go:49-64 | accepted counts exactly the updates that set a new high for their driver, accepted + rejected is the batch length |
| Hub.Loop.HandleRegister | internal/gateway/hub.go:68-72 | adds the client with an empty open queue |
| Hub.Loop.HandleUnregister | internal/gateway/hub.go:73-79 | removes a present client and closes its queue, which was open |
| Hub.Loop.HandleBroadcast | internal/gateway/hub.go:80-94 | the loop over clients offers the message to every subscribed one, on an open queue, dropping at a full one |
| Hub.Loop.SetUserSubs | internal/gateway/hub.go:113-121 | replaces the user's subscriptions by exactly the listed kinds |
| Hub.BroadcastReaches | internal/gateway/hub.go:80-111 | a broadcast enters exactly the queues of connected clients with fewer than 256 waiting messages whose user has no subscriptions or subscribed to its kind |
| Hub.ChoiceDecides | internal/gateway/hub.go:99-121 | until a user chooses again, every connection of that user, also a later one, is offered exactly the chosen kinds, or all if none was chosen |
| Hub.NothingAfterUnregister | internal/gateway/hub.go:73-79 | an ended connection stays closed and is offered nothing in any later run |
| Hub.NoFault | internal/gateway/hub.go:65-97 | in every run no closed queue is sent to or closed again, and no queue exceeds 256 |
| Hub.DeliveryInOrder | internal/gateway/hub.go:80-93 | received plus waiting messages are the admitted broadcasts that found room, in order: gaps only at a full queue |

## Left out

- Redis, Kafka, Postgres and gRPC clients, connection setup, configuration, logging, metrics and tracing: plumbing.
- Lost replies: a failed call is taken to mean that the script had no effect.
- Offset commits in `Consumer.Run` and uniqueness of drivers per ride across redelivery: a redelivered message dispatches anew.
- HTTP handlers, JWT, role checks, the WebSocket pumps and the publication of events: input and output.
- H3 internals, pentagons, haversine and floating-point rounding: cells and distances are abstract, and exact on the ideal plane.
- The SQL repository, the unique index of the migration, and the in-memory driver registry of the driver service.
- The ride state machine: a small table that would only add easy members.
- `RemoveDriver`, `DriverCount`, `RebuildFromDrivers`, `AssignDriver`, `GetLease`: teardown, metrics, startup and read-only helpers; runs of the lease system do not contain `RemoveDriver`, which deletes leases.
- Wrap-around of a manager's version counter: `NextVersion` wraps at 64 bits, but runs stop short of it.
- NearbySearch.SearchNearby: reads one snapshot of Redis without failures; the code reads cell by cell while others write, and gives up on the first failed set or position read.
- LocationIndex.LocationStore.InitDriver: the name, state and rating fields of the profile hash are absent; the state write is in DriverMachine.
- Dispatch.DispatchForRide: the search and the reservations are answered by an arbitrary outside world; the event publication and the timings are not modelled.
- Dispatch.Process: the length of the backoff waits is not modelled, only that each may be cancelled; nor does a commit or a publication fail.
- PipelineRuns.HealableIff: asks that every manager has a TTL of a second or more and is not about to wrap its version counter, since nothing can be reserved otherwise.
- BatchIngest.LocationService.Apply: the timestamp stored with a position is fixed, since no count depends on it.
