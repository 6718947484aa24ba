# Verified model of the ALICE cloud gateway

This project models the control and protocol logic of the gateway in Dafny and proves what it promises over
whole runs: every interleaving, every history of calls, every crash. `dafny verify dfyconfig.toml` checks it.

| file | models |
|---|---|
| `CappedSum.dfy`, `TokenBucket.dfy` | the token bucket, its exact window law and its optimality |
| `DeviceTable.dfy` | the per-device table of buckets, and when a purge can be noticed |
| `Breaker.dfy` | the circuit breaker: counters, transitions, requests during an outage |
| `Backpressure.dfy` | the backpressure controller: in-flight counter, hysteresis |
| `LockOrder.dfy` | threads over numbered locks, and why the lock order excludes deadlock |
| `Ingest.dfy`, `IngestCounters.dfy`, `IngestCache.dfy`, `IngestPipeline.dfy` | the packet pipeline: interleaved tasks, counters, cache, and the pipeline object |
| `SlotQueue.dfy`, `SlotOvertaking.dfy`, `SlotProgress.dfy` | the heavy-slot ticket queue with crashes: safety, exactly when keepers can be overtaken, progress |
| `ProcessTree.dfy`, `SlotWatch.dfy` | the process subtree of a listing, and the memory watcher |
| `Semver.dfy`, `HoldGuard.dfy` | versions, ranges and the advisory hold guard |
| `MetricsExport.dfy` | the metrics registry, its rendering and a reader of the rendered text |
| `QueueBridge.dfy`, `DeviceKeys.dfy` | the message codec and router, the device key cache |
| `Order.dfy`, `Text.dfy`, `Options.dfy` | strict orders, decimal and separated text, optional values |

Objects that the gateway updates in place are classes. A ghost field holds the history of calls, `Valid()`
ties the fields to the state that this history leaves, and the theorems are about histories. Protocols of
several processes or tasks are state machines over their steps.

What the proofs found, beyond what the code is documented to do:

- The frame cache key drops the upper half of the device id. Devices that agree modulo 2^32 share frames
  (`Ingest.KeysCoincideIff`, `IngestPipeline.ForeignFrame`).
- A message survives its encoding if and only if its payload has at most 65535 bytes; the length field wraps
  (`QueueBridge.RoundTripIff`).
- A purge is invisible if and only if the threshold is long enough to refill a whole burst
  (`DeviceTable.PurgeInvisibleIff`).
- The ticket queue is first come, first served if and only if tickets are created in the order of their names
  (`SlotOvertaking.OvertakingIffOutOfOrder`): a keeper that pauses between naming and creating its ticket can be
  overtaken.
- Two values of a metric can print like one whose label text has a line feed in it
  (`MetricsExport.LineFeedsLoseInformation`).
- The hysteresis bounds do not need the low watermark to be below the high one.
- The statistics read after the telemetry can show more requests than packets
  (`IngestPipeline.LateStatisticsCanExceed`).

## Model

| member | source | states |
|---|---|---|
| TokenBucket.TokenIffWindowsFit | src/rate_limiter.rs:48-64 | For any sequence of decisions and any clock, even one that goes back, `tokens` reaches 1 at request k exactly when one more admission fits every window ending at k (1 + admitted in the window ≤ burst + rate × clock movement) and the life of the bucket |
| TokenBucket.SlidingWindowLaw | src/rate_limiter.rs:39-64 | With a nonnegative rate, `try_acquire` admits request k if and only if, for every earlier or equal request j, 1 + the number admitted from j up to k is at most burst + rate × clock movement from j to k |
| TokenBucket.WindowBound | src/rate_limiter.rs:48-64 | Any sequence of decisions that never overdraws the bucket admits at most burst + rate × clock movement in every window |
| TokenBucket.ClockIsElapsed | src/rate_limiter.rs:48-53 | The accumulated clock movement of these laws is the elapsed time when the clock never goes back |
| TokenBucket.BackwardsEarnsNothing | src/rate_limiter.rs:49 | A clock that never goes forward adds nothing to the movement that earns tokens |
| TokenBucket.CallMeans | src/rate_limiter.rs:48-64 | One call in numbers: tokens plus earned, capped at the burst, one taken when a whole one is there; a clock that went back earns 0 and is still stored |
| TokenBucket.GreedyIsOptimal | src/rate_limiter.rs:48-64 | Greedy optimality: for any request times, after every prefix `try_acquire` has admitted at least as many requests as any subset that never overdraws an equal bucket |
| TokenBucket.GreedyBeatsEveryWindowedChoice | src/rate_limiter.rs:48-64 | `try_acquire` admits at least as many requests as any choice, made with knowledge of the future or not, that keeps every window within burst + rate × length |
| CappedSum.GreedyStaysAhead | src/rate_limiter.rs:48-64 | The simulation behind optimality: both "admitted" and "tokens + admitted" of the greedy run stay at least as large |
| CappedSum.UnitIffWindowsFit | src/rate_limiter.rs:50-51 | Capped accumulation (`min` after every gain) holds a unit exactly when no window up to now is overdrawn |
| TokenBucket.RateLimiter.constructor | src/rate_limiter.rs:39-45 | A new limiter is full |
| TokenBucket.RateLimiter.RefillTo | src/rate_limiter.rs:48-53 | The in-place refill: elapsed time clamped at 0, gain capped at the burst size, `last_update` always set |
| TokenBucket.RateLimiter.TryAcquire | src/rate_limiter.rs:56-64 | The call admits if and only if every window and the life of the bucket have room for it; in numbers, if and only if the capped refill reaches 1, and then 1 is taken; the fields stay what the whole history of calls leaves |
| DeviceTable.Isolation | src/rate_limiter.rs:101-140 | In any interleaved run over many devices with a nondecreasing clock whose purges leave time for a full refill, each decision equals that of one standalone limiter that saw only that device's calls |
| DeviceTable.StandaloneIsLimiter | src/rate_limiter.rs:39-64 | The standalone reference of `Isolation` is a greedy run of `RateLimiter`, so the window law and optimality apply to each device of a table |
| DeviceTable.RejectedIsSum | src/rate_limiter.rs:108-112 | Conservation: `total_rejected` is the sum over all devices of the rejections a standalone limiter would have made |
| DeviceTable.AcquireMeans | src/rate_limiter.rs:101-113 | A request in numbers: a device without a bucket gets a full one, one bucket changes, and a refusal is counted |
| DeviceTable.PurgeMeans | src/rate_limiter.rs:135-140 | A purge keeps exactly the buckets whose last call is less than the threshold old, whatever tokens they hold, unchanged |
| DeviceTable.PurgeInvisibleIff | src/rate_limiter.rs:135-140 | A purge threshold is invisible to every device in every run if and only if the burst is 0 or threshold × rate ≥ burst |
| DeviceTable.DrainedByTable | src/rate_limiter.rs:101-140 | The run behind the "only if": drain, wait for the threshold, purge, and the table grants a second whole burst at once |
| DeviceTable.DeviceRateLimiter.Entry | src/rate_limiter.rs:103-106 | A bucket is created full on first use; no other bucket changes |
| DeviceTable.DeviceRateLimiter.Ask | src/rate_limiter.rs:108 | Serving one device changes that device's limiter object and nothing else |
| DeviceTable.DeviceRateLimiter.TryAcquire | src/rate_limiter.rs:101-113 | The answer is the one the history of table operations determines, and the objects and the counter are what that history leaves |
| DeviceTable.DeviceRateLimiter.RemoveDevice | src/rate_limiter.rs:128-130 | Removes one bucket and says whether there was one |
| DeviceTable.DeviceRateLimiter.PurgeInactive | src/rate_limiter.rs:135-140 | Keeps exactly the buckets whose last call is less than the threshold old, and returns how many went |
| Breaker.HistoryInvariant | src/circuit_breaker.rs:89-149 | In every reachable state: Closed counts the failures since the last success or reset, below max(1, threshold); Open and HalfOpen hold exactly max(1, threshold); in HalfOpen the successes are those since it began, below max(1, h), and the requests are 1 + the calls since, capped at max(1, h) |
| Breaker.TransitionLedger | src/circuit_breaker.rs:164-177 | `transition_count` is the total number of entries; entries to Open are entries to HalfOpen plus resets from Open, plus one exactly while Open |
| Breaker.TransitionsIff | src/circuit_breaker.rs:89-169 | Exactly when each state is left for which, from the history alone: Closed opens at the threshold-th failure in a row, Open half-opens at a request after the timeout, HalfOpen opens at any failure and closes at the max(1, half_open_max_requests)-th success since it began, and a reset closes |
| Breaker.OpenedByFailure | src/circuit_breaker.rs:133-149 | An open breaker remembers the time of the failure that opened it |
| Breaker.HealthyAdmitsAll | src/circuit_breaker.rs:89-91 | As long as no threshold of failures in a row occurs, the breaker stays closed and admits every request |
| Breaker.AdmittedIff | src/circuit_breaker.rs:89-112 | Exactly which requests are admitted, from the history alone: all while Closed, those after the timeout while Open, and while HalfOpen those whose number since it began is below max(1, half_open_max_requests) |
| Breaker.OutageStep | src/circuit_breaker.rs:89-149 | What one event can do while the breaker is not closed, case by case |
| Breaker.OutageBound | src/circuit_breaker.rs:89-149 | If the breaker opens at t0 and neither closes nor is reset while the clock advances by T, at most max(1, half_open_max_requests) × floor(T / recovery_timeout) requests are admitted, however probes fail and reopen it |
| Breaker.OutageBoundIsReached | src/circuit_breaker.rs:89-149 | For every configuration and every n an outage of n recovery attempts admits n × max(1, half_open_max_requests) requests, as early as the timeout allows: the bound is attained |
| Breaker.OutageIsBoundedIff | src/circuit_breaker.rs:94 | The requests admitted in an outage of a given length are bounded if and only if the recovery timeout is positive, and then by the bound of `OutageBound` |
| Breaker.CircuitBreaker.AllowRequest | src/circuit_breaker.rs:89-112 | Per state, when a request is admitted and what every field is afterwards; the state stays what the history leaves |
| Breaker.CircuitBreaker.RecordSuccess | src/circuit_breaker.rs:115-130 | Per state, what every field is afterwards, and when the breaker closes; the state stays what the history leaves |
| Breaker.CircuitBreaker.RecordFailure | src/circuit_breaker.rs:133-149 | Per state, what every field is afterwards, and when the breaker opens; the state stays what the history leaves |
| Breaker.CircuitBreaker.ManualReset | src/circuit_breaker.rs:164-169 | The fields stay what the history of events leaves |
| Breaker.CircuitBreaker.Counters | src/circuit_breaker.rs:40-53 | Every reachable breaker object satisfies `HistoryInvariant` |
| Backpressure.InflightIsLargestSuffix | src/backpressure.rs:119-126 | After any run `inflight` is the maximum over all suffixes of starts minus completes (an upper bound that is attained) |
| Backpressure.InflightIsPlainNetIff | src/backpressure.rs:119-126 | `inflight` equals starts minus completes if and only if no prefix has more completes than starts |
| Backpressure.LastDecisiveEvaluationRules | src/backpressure.rs:84-108 | `throttling` is decided by the most recent non-rejected evaluation whose ratio was outside the band, and is off before any |
| Backpressure.StatisticsAreCounts | src/backpressure.rs:86-112 | The two statistics count the Reject and Throttle verdicts of the whole run |
| Backpressure.RejectsIff | src/backpressure.rs:84-95 | An evaluation rejects if and only if the queue length reported last is at least its limit, or some suffix of starts minus completes is at least the in-flight limit |
| Backpressure.ThrottlesIff | src/backpressure.rs:103-115 | An evaluation that does not reject throttles if and only if the throttling is on after it, and else allows |
| Backpressure.RejectionKeepsThrottling | src/backpressure.rs:86-95 | A rejection leaves the throttling as it was |
| Backpressure.SwitchOnBound | src/backpressure.rs:103-108 | The k-th switch-on needs at least high × max_inflight + (k − 1) × (high − low) × max_inflight starts before it, and switches alternate |
| Backpressure.PhaseBound | src/backpressure.rs:103-126 | Between a switch and the next one back at least (high − low) × max_inflight completes (to go off) or starts (to go on) have happened |
| Backpressure.BackpressureController.EvaluateFlow | src/backpressure.rs:84-116 | The verdict and every field afterwards, from the two limits and the two watermarks; the state stays what the history leaves |
| Backpressure.BackpressureController.OnRequestStart | src/backpressure.rs:119-121 | Records a start in the history that determines the state |
| Backpressure.BackpressureController.OnRequestComplete | src/backpressure.rs:124-126 | Records a complete; the counter saturates at 0 |
| Backpressure.BackpressureController.UpdateQueueLen | src/backpressure.rs:129-131 | Stores the queue length, which `RejectsIff` reads back from the history |
| LockOrder.NoDeadlock | src/ingest.rs:82-95 | Any number of threads that take locks only above those they hold: if no one can run, all are done and no lock is held |
| LockOrder.StuckMeansFinished | src/ingest.rs:82-95 | Under every schedule, when no one can go on every operation of every thread has run |
| LockOrder.EveryStepCounts | src/ingest.rs:82-95 | Each effective step uses up one operation, so no schedule goes on forever |
| LockOrder.ExclusiveAlways | src/ingest.rs:103-113 | No lock is held by two threads |
| LockOrder.BreakingTheOrderDeadlocks | src/ingest.rs:93-95 | The rule is needed: any program that reaches for a lock below one it holds deadlocks with some program that keeps the rule |
| Ingest.ProgramsAreTame | src/ingest.rs:176-316 | Every path through `process_packet` (too short, undecryptable, store failure, with and without CDN routing) keeps the documented lock order, as do the readers, and never holds two locks, the key store's included |
| Ingest.WhatAPacketDoes | src/ingest.rs:176-316 | From the bytes of a packet: which steps it takes, in which order, each under which lock, on all five paths |
| Ingest.HeaderBytes | src/ingest.rs:184-196 | The device is the little-endian number of bytes 0 to 7, the version that of bytes 8 to 11 |
| Ingest.KeyMeans | src/ingest.rs:251 | The cache key is the low 32 bits of the device id above the version |
| Ingest.PipelineNeverDeadlocks | src/ingest.rs:82-95 | In every reachable state of any number of packets and readers: if no task can go on, all are finished and every lock is free |
| Ingest.LocksAreExclusive | src/ingest.rs:103-113 | In every reachable state no lock is held by two tasks |
| Ingest.EffectAt | src/ingest.rs:250-304 | Lookup, store, routing, telemetry and statistics occur once each, at a fixed place, in the programs of exactly the packets that pass every failing step |
| Ingest.DoneInOrder | src/ingest.rs:250-304 | A task stores after it looks up, is recorded after it is routed, and is counted last; nothing fails in between |
| Ingest.KeysCoincideIff | src/ingest.rs:251 | Two cache keys are equal if and only if the versions are equal and the devices agree modulo 2^32 |
| Ingest.ShiftAndOr | src/ingest.rs:251 | On 64-bit words the shift and or of the key are a multiplication by 2^32 and an addition |
| IngestCounters.CountersAlwaysMean | src/ingest.rs:273-304 | In every reachable state each counter is a tally of the tasks past its step, whatever the interleaving |
| IngestCounters.CounterGaps | src/telemetry.rs:57-68 | `messages_routed` ≥ `total_packets` ≥ `total_requests`, each gap being exactly the number of tasks between the two recording points, and keyframes + deltas = packets |
| IngestCounters.SnapshotsInOrder | src/ingest.rs:339-347 | A reader that takes the statistics before the telemetry, and that before the router, sees the counters in order |
| IngestPipeline.LateStatisticsCanExceed | src/ingest.rs:339-347 | Read in the other order, more requests than packets can be seen |
| IngestCache.HitAccounting | src/ingest.rs:250-304 | For every interleaving and every eviction: once no task is under way, requests = hits + distinct keys used + repeated misses; so hits ≤ requests − keys, with equality if and only if no lookup missed again |
| IngestCache.RepeatedMissIsARace | src/ingest.rs:252-253 | Without evictions a lookup misses again only while another task with the same key is between its lookup and its store |
| IngestCache.SequentialHits | src/ingest.rs:250-304 | For packets run one after the other without eviction, hits = requests − distinct keys |
| IngestCache.CachedIsLastStored | src/ingest.rs:253 | What is cached under a key is the last frame stored under it, and only an eviction of that key removes it |
| IngestCache.CachedFrameOwner | src/ingest.rs:334-337 | The frame returned for a device and version is the last one stored by a packet of that version from a device equal modulo 2^32 |
| IngestPipeline.ForeignFrame | src/ingest.rs:251-253 | After one packet, every device that agrees with its sender modulo 2^32 is given the sender's frame |
| IngestPipeline.SoloIsHandled | src/ingest.rs:176-316 | Run without interruption, the steps of a packet change the cache and the counters as one step would |
| IngestPipeline.HandledMeans | src/ingest.rs:184-304 | That one step, from the bytes: nothing unless the packet passes, else the frame and every counter |
| IngestPipeline.HandledExtends | src/ingest.rs:176-316 | Handling one more packet extends a sequential history of the interleaved system, in which `SequentialHits` holds |
| IngestPipeline.Pipeline.ProcessPacket | src/ingest.rs:176-316 | The whole call, from the bytes: which of the three errors, or acceptance with device, version, keyframe flag and the queue `version mod 4`; every counter and the cache afterwards; and that the state is that of the interleaved system after the packets so far |
| SlotQueue.HoldersBound | scripts/preflight.sh:56-91 | In every reachable state of any number of keepers, with crashes anywhere, there are at most n holders, each with a slot of its own |
| SlotQueue.OvertakesOnlyLateTickets | scripts/preflight.sh:67-84 | A keeper that takes a slot overtakes no older live waiter except ones whose tickets were created after its last directory listing |
| SlotQueue.FirstComeFirstServed | scripts/preflight.sh:67-84 | When tickets are created in ticket order, no keeper takes a slot while an older live ticket waits |
| SlotOvertaking.OvertakingIffOutOfOrder | scripts/preflight.sh:59-84 | For any number of slots and any tickets of distinct keepers, a run that creates them in a given order can have a keeper take a slot while an older ticket waits if and only if that order is not the order of the names; a clock that goes back is not needed |
| SlotOvertaking.OvertakingHappens | scripts/preflight.sh:59-84 | For any number of slots and any two tickets, a run in which the newer one is created first has its keeper take a slot while the older waits |
| SlotOvertaking.NeverInOrder | scripts/preflight.sh:67-84 | A run from any state that keeps the invariant and creates its tickets in order has no overtaking at any of its steps |
| SlotQueue.PredecessorsNeverGrow | scripts/preflight.sh:67-84 | When tickets are created in ticket order, the set of live older waiters before a waiting keeper never grows |
| SlotProgress.OldestTicketCanTake | scripts/preflight.sh:67-90 | With a free slot, the keeper with the oldest ticket can take one by its own steps alone, wherever in its loop it stands |
| SlotProgress.OldestWaiterCanTake | scripts/preflight.sh:67-90 | With a free slot and a live waiter, the oldest waiter can always take one, needing at most that holders remove their tickets |
| SlotProgress.OldestTakesAFreeSlot | scripts/preflight.sh:67-90 | From every reachable state and whatever the others do: a waiter that stays the oldest while a slot stays free, and neither gives up nor dies, has a slot once it has made more steps of its own than a bound given by its place in the loop, the number of slots and the number of tickets created |
| SlotProgress.LoopProceeds | scripts/preflight.sh:67-90 | Between two listings a waiting keeper always has a next step, and a measure of what is left goes down |
| SlotProgress.ScanCleansUp | scripts/preflight.sh:70-73 | Once a live keeper has checked its whole list, no ticket on it is left whose keeper was dead when the list was made, whatever the others did meanwhile |
| SlotQueue.TicketsAreOrdered | scripts/preflight.sh:59 | File names order the tickets strictly and totally: by time, then by the pid as text |
| SlotQueue.BeforeMeans | scripts/preflight.sh:59-70 | The earlier time comes first; at equal times the pids decide as texts, at the first difference |
| SlotQueue.InvAlways | scripts/preflight.sh:56-91 | The invariant of tickets, locks, listings and the creation log holds after every run |
| SlotQueue.EnabledMeans | scripts/preflight.sh:56-91 | Exactly which steps each keeper can make in each place of its loop, and that a live one can die in any |
| ProcessTree.TreeIn | scripts/preflight.sh:152-164 | The marking loop terminates and prints, in listing order, exactly the rows whose pid descends from the root by parent links avoiding `skip`, for any listing |
| ProcessTree.FixpointIsDescends | scripts/preflight.sh:156-161 | When no row can be marked any more, the marked pids are exactly the descendants |
| ProcessTree.DescendsIsLeast | scripts/preflight.sh:156-161 | The descendants are the least set that has the root and every child of a member but the skipped one |
| ProcessTree.LinesMean | scripts/preflight.sh:162 | The printed lines are those of the descending rows, each once, in listing order, with its pid, size and command |
| ProcessTree.LeftOutDescendsFromSkip | scripts/preflight.sh:150-153 | Whatever leaving out `skip` removes descends from `skip` |
| ProcessTree.MarkingShrinks | scripts/preflight.sh:157-160 | Every marking leaves fewer rows unmarked: the loop ends |
| SlotWatch.HolderMib | scripts/preflight.sh:210 | The MiB of a holder's tree: its KiB divided by 1024, rounded down |
| SlotWatch.Survey | scripts/preflight.sh:206-214 | One pass over the slots gives the total, the first largest holder, and the first largest among the numbered slots |
| SlotWatch.TotalsMean | scripts/preflight.sh:210-211 | The totals are sums, line by line and slot by slot |
| SlotWatch.Largest | scripts/preflight.sh:212-213 | A strict running maximum finds the first of the largest |
| SlotWatch.Victim | scripts/preflight.sh:215-222 | Which tree a watcher stops |
| SlotWatch.VictimMeans | scripts/preflight.sh:215-222 | A watcher stops the largest tree if and only if the total is past the cap and it is its own tree, or that of the slot without a number while its own is the largest numbered one |
| SlotWatch.VictimIsLargest | scripts/preflight.sh:206-222 | Whatever a watcher sees, it stops a tree only past the total cap, only a largest one, and only its own or that of the slot without a watcher |
| SlotWatch.ExactlyOneWatcherStopsTheLargest | scripts/preflight.sh:137-139 | Of watchers that see the same listing and slots, past the total cap exactly one acts, and it stops a largest tree, without a coordinator |
| Semver.ParseOfWritten | scripts/advisory_hold_guard.py:37-41 | Parsing a version written as Semantic Versioning 2.0.0 has it, with or without build metadata, gives that version back |
| Semver.VersionsAreWritten | scripts/advisory_hold_guard.py:37-41 | `ParseOfWritten` is about every well-formed version, with any build metadata or none |
| Semver.WellFormedMeans | scripts/advisory_hold_guard.py:44-48 | Well-formed: no empty identifier, only the alphabet of the standard, no leading zero in a number |
| Semver.IdentifierChars | scripts/advisory_hold_guard.py:44-48 | That alphabet: digits, letters and the hyphen of ASCII |
| Semver.ParseOfParts | scripts/advisory_hold_guard.py:37-41 | What any text parses to, from its parts: three numbers, the identifiers after the first dash, nothing after a plus; any other number of parts, or one that is no number, does not parse |
| Semver.ReadIntIff | scripts/advisory_hold_guard.py:40 | Exactly which parts are numbers, with blanks around and single underscores within |
| Semver.UnderscoresDoNotCount | scripts/advisory_hold_guard.py:40 | Underscores in a number do not change it |
| Text.LeadingZero | scripts/advisory_hold_guard.py:40-48 | Nor do leading zeros |
| Semver.SpacesAre | scripts/advisory_hold_guard.py:58-60 | The blanks that are stripped |
| Semver.RanksAreOrdered | scripts/advisory_hold_guard.py:44-49 | Precedence is a strict total order on all comparison keys |
| Semver.KeyMeans | scripts/advisory_hold_guard.py:48 | What an identifier of any kind, well-formed or not, is compared as |
| Semver.PrecedenceFollowsTheStandard | scripts/advisory_hold_guard.py:44-49 | On well-formed versions precedence is the clause-by-clause definition in section 11 of Semantic Versioning 2.0.0 |
| Semver.TiesDifferInBuildOnly | scripts/advisory_hold_guard.py:37-49 | Two written versions tie if and only if they are the same text apart from build metadata |
| Semver.InRange | scripts/advisory_hold_guard.py:52-66 | Gives up exactly when the version or a comparator does not parse; else accepts if and only if every comparator is satisfied and a pre-release has a comparator that names a pre-release of the same major, minor and patch |
| Semver.ComparatorOfWritten | scripts/advisory_hold_guard.py:58-60 | Every operator and version, with blanks wherever allowed, parses to that comparator (`>=` is not read as `>`) |
| Semver.ComparatorIsItsVersion | scripts/advisory_hold_guard.py:58-60 | After its operator a comparator is exactly what the stripped rest parses to |
| Semver.NoOperator | scripts/advisory_hold_guard.py:58-59 | A part that does not start with an operator does not parse |
| Semver.OpsAre | scripts/advisory_hold_guard.py:59 | The five operators as they are written |
| Semver.RangeMeaning | scripts/advisory_hold_guard.py:52-66 | A written version is in a written range if and only if it meets every comparator in the order of the standard and, being a pre-release, equals some pre-release bound in major, minor and patch |
| Semver.RangesAreConvex | scripts/advisory_hold_guard.py:61-66 | Between two accepted versions, a version is accepted if and only if it is a release or equals some pre-release bound in major, minor and patch |
| HoldGuard.IgnoredIds | scripts/advisory_hold_guard.py:69-73 | The ids of an ignore list, from plain and table entries; none without the file |
| HoldGuard.DependentsOf | scripts/advisory_hold_guard.py:76-87 | Exactly the texts "name version" of the packages with a dependency entry that refers to this name and version |
| HoldGuard.BareNameMeansOnlyVersion | scripts/advisory_hold_guard.py:78-85 | A bare name refers to a version if and only if that is the only locked package of the name |
| HoldGuard.RefersIff | scripts/advisory_hold_guard.py:81-85 | An entry refers to a version if and only if it is the name alone of the only locked version, or the name and the version, whatever follows |
| HoldGuard.CheckHold | scripts/advisory_hold_guard.py:110-124 | A hold gives no error if and only if it is exact, and which of the errors it gives |
| HoldGuard.HoldMeans | scripts/advisory_hold_guard.py:110-123 | A hold is exact if and only if it is unexpired, ignored where required, locked, and names exactly the packages that depend on it |
| HoldGuard.AnyRange | scripts/advisory_hold_guard.py:131 | Whether some patched range has the version, unless something does not parse first |
| HoldGuard.CheckCrate | scripts/advisory_hold_guard.py:125-132 | A crate gives no error if and only if each other locked version is held or in a patched range |
| HoldGuard.Check | scripts/advisory_hold_guard.py:90-135 | Return code 2 if and only if there is nothing to compare; otherwise 0 if and only if every hold is exact and every other version of a held crate is held or fixed; it raises only if some version or range does not parse |
| HoldGuard.PassesMeans | scripts/advisory_hold_guard.py:90-135 | The guard passes if and only if there are packages and holds, every hold is exact, and every locked version of a held crate is held or in a patched range of that crate |
| HoldGuard.ParsesMeans | scripts/advisory_hold_guard.py:37-60 | What the guard needs in order never to raise: every locked version and every patched range parses |
| HoldGuard.PassesEarlier | scripts/advisory_hold_guard.py:112-113 | Passing on a date implies passing on all earlier dates |
| MetricsExport.ReadOfRender | src/metrics_export.rs:143-183 | A reader of the text-based exposition format gives back the registry that was rendered: names, help, kinds, labels and values |
| MetricsExport.RenderingLosesNothing | src/metrics_export.rs:143-183 | Registries with equal output are equal (no line feed in help and labels, plain names, values that read back, as all integers below 1e15 do) |
| MetricsExport.LineFeedsLoseInformation | src/metrics_export.rs:146-179 | The condition on labels is needed: in any registry, two labelled values of one metric that are neighbours in label order print like one value under a label text made of both lines, with a line feed in it, if that text comes before the labels after them |
| MetricsExport.TwoValuesPrintAsOne | src/metrics_export.rs:146-179 | For a metric with exactly two labelled values that is always so |
| MetricsExport.ValueTextReads | src/metrics_export.rs:171-177 | The printed value reads back, without a blank or line feed in it |
| MetricsExport.IntegersReadBack | src/metrics_export.rs:171-173 | Every integer below 1e15 in magnitude is among the values that read back |
| MetricsExport.OthersReadBackIff | src/metrics_export.rs:174-177 | Any other value reads back if and only if its printed text is one word that the reader takes for it |
| Text.DigitsInOrder | src/metrics_export.rs:173 | The ten digits |
| MetricsExport.ValueTextMeans | src/metrics_export.rs:171-177 | Integers below 1e15 in magnitude are printed in digits with a sign, everything else by the general formatting |
| MetricsExport.LinesMean | src/metrics_export.rs:147-179 | The printed lines of a metric, word for word |
| MetricsExport.MetricEntry.constructor | src/metrics_export.rs:34-41 | A new entry has no values |
| MetricsExport.MetricEntry.IncrementWithLabels | src/metrics_export.rs:49-63 | Adds to one value, which starts at 0 |
| MetricsExport.MetricEntry.RenderTo | src/metrics_export.rs:147-179 | Appends the header lines and the values in label order |
| MetricsExport.MetricsRegistry.Register | src/metrics_export.rs:89-93 | Registers a name once; registering it again changes nothing |
| MetricsExport.ChangedMeans | src/metrics_export.rs:96-121 | An update changes one value of one registered metric, absent ones counting as 0, and nothing else |
| MetricsExport.MetricsRegistry.CounterIncLabels | src/metrics_export.rs:96-114 | Adds to one value of one registered metric, and leaves every other entry and unknown names alone |
| MetricsExport.MetricsRegistry.GaugeSetLabels | src/metrics_export.rs:103-121 | Sets one value of one registered metric, and leaves every other entry and unknown names alone |
| MetricsExport.MetricsRegistry.Get | src/metrics_export.rs:125-127 | The value without labels, if the metric is registered and has one |
| MetricsExport.MetricsRegistry.RenderPrometheus | src/metrics_export.rs:143-183 | The nested loops produce the text that `ReadOfRender` reads back |
| QueueBridge.RoundTripIff | src/queue_bridge.rs:30-69 | Decoding an encoding followed by anything gives the message back if and only if its payload has at most 65535 bytes |
| QueueBridge.DecodeOfEncode | src/queue_bridge.rs:30-69 | For a longer payload it gives the message with the payload cut to its length modulo 65536 |
| QueueBridge.Layout | src/queue_bridge.rs:30-40 | The encoding byte for byte: little-endian fields at their places, the priority as 0 to 3, the length in two bytes, a zero, the payload |
| QueueBridge.AcceptedIff | src/queue_bridge.rs:43-58 | A buffer is accepted if and only if it has 24 bytes, a priority of at most 3 and the declared payload |
| QueueBridge.EncodeOfDecode | src/queue_bridge.rs:43-69 | Re-encoding an accepted buffer gives its first 24 + len bytes with byte 23 set to 0 |
| QueueBridge.StreamRoundTrip | src/queue_bridge.rs:30-69 | A concatenation of encodings of any message list (payloads within the limit) decodes back to the list |
| QueueBridge.StreamsDiffer | src/queue_bridge.rs:30-40 | Different message lists have different streams |
| QueueBridge.LittleEndianOfFrom | src/queue_bridge.rs:43-69 | Reading little-endian bytes loses nothing and stays within the width |
| QueueBridge.GatewayRouter.constructor | src/queue_bridge.rs:81-87 | At least one queue |
| QueueBridge.GatewayRouter.Route | src/queue_bridge.rs:90-95 | A queue within range, and both counters account for every routed message and byte |
| QueueBridge.GatewayRouter.RouteWithPriority | src/queue_bridge.rs:98-106 | Critical messages go to queue 0; otherwise as `Route` |
| DeviceKeys.ContextsDiffer | src/device_keys.rs:43-44 | Distinct device ids give distinct derivation contexts |
| DeviceKeys.CachedIffDerivedSince | src/device_keys.rs:36-64 | An id is cached if and only if it was derived and neither revoked nor cleared since |
| DeviceKeys.DeviceKeyStore.DeriveDeviceKey | src/device_keys.rs:36-49 | Whatever was derived, revoked and cleared before, the key is KDF("alice-gw:device:" + decimal(id), master secret) |
| DeviceKeys.DeviceKeyStore.RevokeDevice | src/device_keys.rs:52-54 | Forgets one id and keeps the rest |
| DeviceKeys.DeviceKeyStore.ClearCache | src/device_keys.rs:62-64 | Forgets every id |
| DeviceKeys.DeviceKeyStore.CachedKeyCount | src/device_keys.rs:57-59 | The number of ids derived since they were last revoked or cleared |

## Left out

- Floating point: `f64` is modelled by `real`, without rounding, NaN, infinities and negative zero, in the rate
  limiter, the breaker, the backpressure controller and the metric values.
- Counter widths: `u32` and `u64` counters are unbounded numbers; widths are kept for the 16-bit length field, the
  little-endian fields and the cache key.
- TokenBucket.SlidingWindowLaw: needs a nonnegative rate; for a negative one `TokenBucket.TokenIffWindowsFit` states the exact law, which has one more condition.
- DeviceTable.Isolation: needs a nonnegative rate and a nondecreasing clock.
- Breaker.OutageBound: needs a positive recovery timeout; `Breaker.OutageIsBoundedIff` shows that without one there is no bound.
- HoldGuard.Check: does not state the wording, order and notes of the messages; expiry dates are day numbers.
- HoldGuard.AnyRange: which range is tried first is left open, as the set order is; so is whether an unparsable range is reached.
- Semver.InRange: digits are the ASCII ones, and blanks are the space and the characters from tab to carriage return; what else Python's `int`, `isdigit` and `strip` take is left out.
- MetricsExport.ReadOfRender: how non-integral and very large values are printed is a parameter with an assumed reader; the format's escaping is not done by the renderer and not by the reader.
- MetricsExport.MetricsRegistry.CounterIncLabels: the calls without labels are this one with the empty label text; `len` and `is_empty` are left out.
- SlotQueue.HoldersBound: assumes that `flock` is exclusive and released on death, that every keeper has the same n, and that pids are not reused.
- SlotQueue.FirstComeFirstServed: assumes that a directory listing is one atomic snapshot of the queue; `readdir` promises less while tickets come and go. The statements of `SlotOvertaking` and `SlotProgress` assume the same.
- SlotProgress.OldestTakesAFreeSlot: one slot has to stay free; if free slots move about, the search from the lowest slot up can miss them all. It says nothing about a keeper that the scheduler does not run, and the timeout is an exit that can happen at any round.
- The rest of the keeper: a pid that exists but may not be signalled, failures to open files other than as an exit, nested runs under an inherited slot, the info files and the messages.
- SlotWatch.Victim: the cap on the watcher's own tree, the killing itself and a `ps` that lists nothing are left out; pids of the slots are those found alive.
- SlotWatch.ExactlyOneWatcherStopsTheLargest: assumes that all watchers judge one `ps` listing and one set of info files; in the script each takes its own, and then `SlotWatch.VictimIsLargest` is what holds of each.
- ProcessTree.TreeIn: the splitting of a `ps` line into fields is left out, and pids are numbers.
- Ingest.ProgramsAreTame: `process_packet` is its sequence of lock operations and shared effects; decryption, the storage, the CDN router, the sync hub and latency are outcomes or opaque steps.
- IngestPipeline.Pipeline.ProcessPacket: leaves out the CDN node, the number of sync recipients and the latency in the result.
- IngestCache.HitAccounting: the cache is a map from which any key can vanish at any moment; admission, capacity and sampling are not modelled further.
- DeviceKeys.DeviceKeyStore.DeriveDeviceKey: the derivation function is a parameter, and calls are whole steps, as the mutex makes them.
- `src/telemetry.rs` beyond the packet counters: the latency, cardinality and frequency sketches.
- `src/container_bridge.rs`, `scripts/sibling_coverage_guard.py`: an id counter with threshold tests and set membership, which would only add easy members.
- Sockets, the async runtime, logging, configuration defaults, plain getters, command lines, and the reading of TOML and JSON.
- The remaining parts of ALICE (crypto, database, cache, CDN, sync and analytics) are not part of this model.
