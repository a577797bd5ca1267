# Models of the golib packages

Nineteen source files of `packages/golib`, each a small library of its own, modelled in Dafny and proved to keep what they
promise. `dafny verify dfyconfig.toml` checks everything.

Each library has a description on plain values (module names without `Objects`) that the main theorems speak about. Where
the Go code changes objects in place, a class with the same fields and methods stands beside it, and every method is proved
against that description. Clock readings, hash functions, ciphers, compressors and the environment's choices are parameters.

- **Concurrency.** `Bulkhead` and `Connpool` give each goroutine a program counter and prove their invariants over every
  schedule of any number of goroutines; `BulkheadQueue` says who waits and who is turned away, `ConnpoolLimits` which
  connections are kept, closed and handed out. `Distlock` does the same for mutexes, an in-memory backend, a clock and a
  fencing guard; `DistlockLeases` says when a lease is granted and how long it lasts. `Circuit` is for requests that end in a
  later state than the one that admitted them. `BulkheadObjects` and `ConnpoolObjects` tie the program counters to the text of
  the code: the methods, in the order of their Go statements, take exactly those steps.
- **Graphs.** `HealthGraph` (depth-first order and impact), `DependencyIndex` (the same impact over a maintained reverse
  index), over the paths of `Dependencies`.
- **Structures.** `HashRing` and `HashRingOwners`, `Lru` with `LruObjects` and `LruRecency`, `KeyRing`, `Bloom` and `BitSet`
  over the words of `Words`, `Popcount` and `BitPositions`.
- **Formats.** `Cbor` with `CborObjects` and `CborErrors`, `JsonPointer`, `JsonPatch` and `JsonPatchLaws`, `DurationFmt`,
  `DurationRoundTrip`, `DurationPanics` and `DurationGrammar`, `CompressWriters` with `CompressObjects` and `CompressStatus` over
  the `Responses` a client sees.
- **Rates.** `RateLimits` holds both limiters, `RateDecisions` says exactly what they admit.

Helpers: `Wrappers`, `GoInts`, `Counting`, `Strings`, `Decimal`, `Division`, `Trimming`.

Where code and documentation part, the model follows the code:

- `compress/compress.go` sends the header without the encoding it decides on later when `WriteHeader` comes with a final status
  before the first byte, and `httpx` when it does before the threshold. `compress/compress.go` and the middleware also overwrite an encoding
  that the handler had announced for a body of its own, and pack that body a second time; only `httpx` looks first.
  `CompressWriters` states exactly which responses a client cannot read.
- `AddService` leaves the reverse edges of dropped dependencies behind; `DependencyIndex` states exactly when the index stays
  right, and exactly when the answers of the two packages agree all the same.
- The active metric of the bulkhead reaches the number of calls; `Bulkhead.ActiveLimitHoldsExactly` says when its limit holds.
- HalfOpenMax, documented as the most concurrent requests in half-open, bounds them over all runs under no configuration: a
  failure that comes from an earlier request ends the half-open stay, and its probes are still in flight in the next. The bound
  is HalfOpenMax plus what is in flight when the breaker becomes half-open, so HalfOpenMax if and only if nothing is
  (`Circuit.HalfOpenMaxHoldsExactly`). The probes admitted in the current stay alone reach HalfOpenMax + SuccessThreshold - 1
  (`Circuit.StayLimitHoldsExactly`).
- When points of different nodes collide on the ring, who owns a key depends on how the ring was built
  (`HashRing.HistoryIsForgottenExactly`), because the sort is not stable.
- A released connection goes to the idle list without waking a goroutine that waits for capacity (`Connpool.WaiterNeedsFreeSlot`).
- Mutual exclusion needs distinct owners, because an owner is let in again (`Distlock.ExclusionIffDistinctOwners`).
- In a patch, "-" appends to an array whatever is left of the path, and the pointer "/" is the whole document.
- The duration parser panics on a text that stops halfway through a micro sign (`DurationPanics.PanicsExactly`).
- `SetAll` sets bits past the size.

## Model

| member | source | states |
|---|---|---|
| Bulkhead.ActBalances | packages/golib/bulkhead/bulkhead.go:89-163 | each step of Execute and run changes every channel occupancy and counter by exactly what the moving thread starts or stops contributing, never takes a channel past its capacity, and moves the thread forward |
| Bulkhead.StepKeepsInv | packages/golib/bulkhead/bulkhead.go:89-163 | every step of every thread keeps: both channels and all six counters are the numbers of threads at the matching program points, and stay within the limits |
| Bulkhead.ReachableInv | packages/golib/bulkhead/bulkhead.go:63-163 | that invariant holds after every schedule of any number of calls on a new bulkhead |
| Bulkhead.Limits | packages/golib/bulkhead/bulkhead.go:45-46 | in every interleaving at most MaxConcurrent threads are inside fn and at most MaxQueue hold queue slots; the active metric exceeds the limit at most by the threads between giving the permit back and decrementing, and never the calls in progress |
| Bulkhead.ActiveReachesCalls | packages/golib/bulkhead/bulkhead.go:150-154 | under every configuration some run of n calls brings the active metric to n with one thread inside fn |
| Bulkhead.ActiveLimitHoldsExactly | packages/golib/bulkhead/bulkhead.go:150-154 | the active metric stays within MaxConcurrent in all runs if and only if there are no more calls than that |
| Bulkhead.ActiveMayExceedLimit | packages/golib/bulkhead/bulkhead.go:150-154 | the instance with one permit and two calls |
| Bulkhead.NeverStuck | packages/golib/bulkhead/bulkhead.go:119-136 | no receive that gives back a permit or a queue slot ever blocks, and every unfinished thread has a step it can take |
| Bulkhead.Quiescence | packages/golib/bulkhead/bulkhead.go:18-28 | with no call in flight both channels are empty, active = queued = 0, accepted + rejected = calls, and accepted = completed + failed if and only if no fn panicked |
| Bulkhead.PanicUnbalances | packages/golib/bulkhead/bulkhead.go:150-162 | under every configuration a run in which fn panics ends with a call accepted that is neither completed nor failed |
| Bulkhead.EveryRunEnds | packages/golib/bulkhead/bulkhead.go:89-163 | n calls take at most 13n steps in all, whatever the schedule |
| BulkheadQueue.EntersExactly | packages/golib/bulkhead/bulkhead.go:94-99 | a call takes a permit at once exactly when fewer than MaxConcurrent threads hold one, in every reachable state |
| BulkheadQueue.QueuesExactly | packages/golib/bulkhead/bulkhead.go:102-135 | a call without a permit gets a place in the queue exactly when fewer than MaxQueue threads hold one, and otherwise is rejected as full |
| BulkheadQueue.QueuedWaits | packages/golib/bulkhead/bulkhead.go:107-112 | a call with a place gets to wait |
| BulkheadQueue.WaitEnds | packages/golib/bulkhead/bulkhead.go:115-130 | the wait ends with ErrBulkheadTimeout when the timer fires, with the context error when it is done, or with a permit, and this exactly when fewer than MaxConcurrent threads hold one |
| BulkheadQueue.VerdictIsKept | packages/golib/bulkhead/bulkhead.go:89-163 | how fn ends decides what the call returns, and a reason for rejection once settled is the one returned |
| BulkheadQueue.FullMeansFull | packages/golib/bulkhead/bulkhead.go:102-135 | in every run a call is rejected as full only if, when it tried, MaxQueue threads held places in the queue |
| BulkheadObjects.Bulkhead.constructor | packages/golib/bulkhead/bulkhead.go:63-84 | an idle bulkhead with the defaults applied |
| BulkheadObjects.Bulkhead.Execute | packages/golib/bulkhead/bulkhead.go:89-137 | run without interference the code takes exactly the steps the state machine gives a lone call; it runs fn exactly when a permit is free, is rejected as full exactly when no permit and no queue slot is, and otherwise waits and ends as the timer or the context says; it counts once, and leaves permits, queue and both gauges as they were |
| BulkheadObjects.Bulkhead.Wait | packages/golib/bulkhead/bulkhead.go:115-136 | the three cases of the second select, a permit that others gave back among them: the queue slot is given back, and the call runs or counts one rejection with the reason |
| BulkheadObjects.Bulkhead.Enter | packages/golib/bulkhead/bulkhead.go:121-125 | a call with a permit counts once as accepted and leaves every gauge as it was |
| BulkheadObjects.Bulkhead.Run | packages/golib/bulkhead/bulkhead.go:150-163 | the permit is given back whether fn succeeds, fails or panics, and only a panic is counted as neither |
| Distlock.LiveLockOwnsEntry | packages/golib/distlock/distlock.go:67-122 | in every interleaving of lock, unlock, renew and clock steps an unexpired held lock is backed by the entry for its key: same owner, expiry no earlier |
| Distlock.MutualExclusion | packages/golib/distlock/distlock.go:148-198 | with distinct owners per key two mutexes on one key never hold unexpired locks at the same time |
| Distlock.SharedOwnerBothHold | packages/golib/distlock/distlock.go:153-157 | any two mutexes sharing key and owner have a run in which both hold the lock |
| Distlock.ExclusionIffDistinctOwners | packages/golib/distlock/distlock.go:148-168 | exclusion over all runs holds if and only if owners on one key are distinct |
| Distlock.AcceptedInAcquisitionOrder | packages/golib/distlock/distlock.go:212-220 | in every run, expiry and delayed writers included, accepted writes carry strictly increasing tokens, each of an acquisition its writer made |
| Distlock.TokensIncrease | packages/golib/distlock/distlock.go:159-167 | a lock granted at any point of any run carries a larger token than every lock granted before |
| Distlock.StaleHolderStaysFenced | packages/golib/distlock/distlock.go:211-220 | after a write under one acquisition is accepted, no continuation of the run ever accepts a write under it again or under an earlier one |
| DistlockLeases.GrantedExactly | packages/golib/distlock/distlock.go:149-168 | in every reachable world a client between calls is granted the lock exactly when the entry for its key is not an unexpired one of another owner; otherwise only the clock moves |
| DistlockLeases.GrantedWhenUnhindered | packages/golib/distlock/distlock.go:149-168 | it is granted whenever every lease ever given on its key is its own or has expired |
| DistlockLeases.RefusedWhileHeld | packages/golib/distlock/distlock.go:149-157 | it is refused while another client holds an unexpired lock on its key |
| DistlockLeases.GrantedAfterWaiting | packages/golib/distlock/distlock.go:66-88 | from every reachable world every client gets the lock after waiting long enough: a crashed holder blocks no key for ever |
| DistlockLeases.LeaseLasts | packages/golib/distlock/distlock.go:28-31 | a lock granted is unexpired from then on for exactly its ttl |
| DistlockLeases.PublishAndClear | packages/golib/distlock/distlock.go:66-112 | a granted lock becomes the lock of the mutex and one to write under, and after Unlock the mutex has none |
| DistlockLeases.RenewalLasts | packages/golib/distlock/distlock.go:114-122 | renewing an unexpired lock, or an expired one that nobody has taken, makes it last for exactly the ttl from now on |
| DistlockLeases.UnlockFrees | packages/golib/distlock/distlock.go:102-112 | after the unlock of a holder whoever tries next on the key is granted the lock at once |
| DistlockLeases.OthersUnlockKeeps | packages/golib/distlock/distlock.go:170-183 | no other client ends an unexpired lock by its unlock |
| DistlockLeases.AcceptedExactly | packages/golib/distlock/distlock.go:211-220 | the guard lets a write through exactly when its token is larger than that of every write before |
| DistlockObjects.MemoryBackend.TryAcquire | packages/golib/distlock/distlock.go:148-168 | refused exactly when another owner holds an unexpired lock; otherwise a fresh lock with the next token becomes the entry and nothing else changes |
| DistlockObjects.MemoryBackend.Release | packages/golib/distlock/distlock.go:170-183 | deletes the entry if the owner matches, refuses another owner, and forgives a missing entry |
| DistlockObjects.MemoryBackend.Renew | packages/golib/distlock/distlock.go:185-198 | extends the entry in place, expired or not, so that every holder of the same lock sees the new expiry; nothing else changes |
| DistlockObjects.Mutex.constructor | packages/golib/distlock/distlock.go:53-64 | an empty mutex whose ttl is positive |
| DistlockObjects.Mutex.Lock | packages/golib/distlock/distlock.go:66-88 | whatever others do to the backend between the attempts, the retry loop takes the lock at the first attempt not refused, and gives up only when cancelled, having changed nothing itself |
| DistlockObjects.Mutex.TryLock | packages/golib/distlock/distlock.go:90-100 | one attempt; m.lock changes if and only if it succeeds |
| DistlockObjects.Mutex.Unlock | packages/golib/distlock/distlock.go:102-112 | releases under the own owner and forgets the lock even when the release is refused |
| DistlockObjects.Mutex.Renew | packages/golib/distlock/distlock.go:114-122 | renews under the own owner; without a lock reports expiry and touches nothing |
| DistlockObjects.FencingGuard.Validate | packages/golib/distlock/distlock.go:211-220 | accepts exactly the tokens above the last accepted one and remembers them |
| Connpool.GetIdleBalances | packages/golib/connpool/connpool.go:170-198 | getIdle frees one slot for each connection it destroys and hands on the slot of the one it returns |
| Connpool.ActBalances | packages/golib/connpool/connpool.go:126-260 | what each locked step of Acquire, Release and Destroy keeps of the sums of slots, idle, active, created and destroyed connections |
| Connpool.ActKeepsIds | packages/golib/connpool/connpool.go:126-260 | no step loses, duplicates or invents a connection, except the one that numbers a new one |
| Connpool.CloseKeeps | packages/golib/connpool/connpool.go:262-277 | Close frees one slot and calls the closer once for each idle connection, and keeps the whole invariant |
| Connpool.SlotsBalance | packages/golib/connpool/connpool.go:126-277 | in every interleaving occupied slots = idle + active + creations in flight <= MaxSize, created - destroyed = the live counted connections, and no more than MaxSize connections are alive |
| Connpool.SingleHolder | packages/golib/connpool/connpool.go:170-260 | no connection has two holders, is idle or closed while held, is closed twice, or stays idle after it was closed |
| Connpool.DrainedPool | packages/golib/connpool/connpool.go:262-277 | a closed pool whose callers have given everything back has closed each connection it ever created exactly once and has all slots free |
| Connpool.NeverStuck | packages/golib/connpool/connpool.go:155-160 | whoever gives a connection or a slot back finds the semaphore non-empty, so no receive blocks and destroyLocked never needs its default case; every unfinished goroutine can move on |
| Connpool.WaiterNeedsFreeSlot | packages/golib/connpool/connpool.go:140-153 | a goroutine waiting for capacity gets on if and only if idle + active + in flight < MaxSize: a connection released to the idle list does not wake it |
| ConnpoolLimits.AcquireTakesLatest | packages/golib/connpool/connpool.go:170-198 | in every state an Acquire gets the last idle connection within MaxLifetime and IdleTimeout, its stamps refreshed; exactly those above it are closed, from the top, and those below stay; it waits for capacity exactly when there is none |
| ConnpoolLimits.ReleaseKeepsExactly | packages/golib/connpool/connpool.go:219-240 | a released connection goes on top of the idle stack exactly when the pool is open and its age is within MaxLifetime; otherwise it and no other is closed |
| ConnpoolLimits.ReleasedIsNext | packages/golib/connpool/connpool.go:170-240 | the next Acquire gets that very connection exactly when it is still within both limits |
| ConnpoolLimits.DestroyCloses | packages/golib/connpool/connpool.go:243-260 | a destroyed connection is closed and nothing else changes place |
| ConnpoolLimits.CloseEmpties | packages/golib/connpool/connpool.go:263-277 | Close closes the idle connections in order, once, and every later Acquire fails as closed |
| ConnpoolLimits.OpenPoolLooks | packages/golib/connpool/connpool.go:126-135 | an Acquire on an open pool goes on to look for an idle connection |
| ConnpoolLimits.NewConnectionStamps | packages/golib/connpool/connpool.go:200-216 | a new connection carries the id drawn for it, two readings of the clock and one use, whatever others do in between |
| ConnpoolLimits.StatisticsCount | packages/golib/connpool/connpool.go:134-167 | in every run the statistics count the connections handed out, the waits that timed out and the failed creations |
| ConnpoolObjects.Pool.constructor | packages/golib/connpool/connpool.go:100-116 | an empty pool with a positive MaxSize |
| ConnpoolObjects.Pool.Acquire | packages/golib/connpool/connpool.go:126-168 | run without interference the code takes exactly the steps the state machine gives it, in every outcome and with every clock reading of its own; the connection handed out is no longer idle |
| ConnpoolObjects.Pool.Grow | packages/golib/connpool/connpool.go:140-168 | Acquire from its select on: a slot, a connection and the counters, or a timeout though a slot may be free, or a failed create that gives the slot back |
| ConnpoolObjects.Pool.Create | packages/golib/connpool/connpool.go:200-216 | a new numbered connection, or none and nothing changed when the factory fails |
| ConnpoolObjects.Pool.GetIdle | packages/golib/connpool/connpool.go:170-198 | the loop pops from the back, destroys what outlived its limits and returns the first that did not, out of the stack and with fresh stamps |
| ConnpoolObjects.Pool.Release | packages/golib/connpool/connpool.go:218-240 | back to the stack, or destroyed on a closed pool or past its lifetime |
| ConnpoolObjects.Pool.Destroy | packages/golib/connpool/connpool.go:242-248 | discards the connection and frees its slot, leaving the idle stack alone |
| ConnpoolObjects.Pool.DestroyLocked | packages/golib/connpool/connpool.go:250-260 | one closer call, one count, and one slot freed unless none is occupied |
| ConnpoolObjects.Pool.Close | packages/golib/connpool/connpool.go:262-277 | destroys every idle connection in order, once; a second call does nothing |
| HealthGraph.HealthGraph.AddNode | packages/golib/healthgraph/graph.go:33-45 | replaces the node and its dependencies, healthy, and nothing else |
| HealthGraph.HealthGraph.Visit | packages/golib/healthgraph/graph.go:138-156 | marks the node, and keeps the order free of duplicates, complete for what is finished, and respectful of dependencies, on cyclic graphs too |
| HealthGraph.HealthGraph.VisitAll | packages/golib/healthgraph/graph.go:152-160 | the same for a list of names, all of which end up visited |
| HealthGraph.FinishNode | packages/golib/healthgraph/graph.go:144-155 | appending a node after visiting its dependencies keeps every registered dependency first unless it depends in turn on the node |
| HealthGraph.AcyclicOrder | packages/golib/healthgraph/graph.go:121-122 | such an order puts every registered dependency before its dependents if and only if the graph is acyclic |
| HealthGraph.HealthGraph.TopologicalOrder | packages/golib/healthgraph/graph.go:121-162 | terminates on every graph with each registered node exactly once; each registered dependency comes before its dependents if and only if the graph is acyclic; it is the depth-first order of sorted names |
| HealthGraph.HealthGraph.Expand | packages/golib/healthgraph/graph.go:146-156 | the part of a visit after the mark: the dependencies in sorted order, then the node itself |
| HealthGraph.OrderIsDeterministic | packages/golib/healthgraph/graph.go:129-134 | the order depends only on the names and on who declares whom, not on the order of additions or of listings |
| HealthGraph.IndependentNodesSorted | packages/golib/healthgraph/graph.go:129-134 | nodes without dependencies come in the order of their names |
| Strings.LeqExactly | packages/golib/healthgraph/graph.go:134 | sort.Strings order: the byte at which two texts first differ decides, and a text comes after its beginnings |
| HealthGraph.HealthGraph.FindDependents | packages/golib/healthgraph/graph.go:78-92 | whatever the map iteration order, marks only nodes that depend on the failed one, all direct dependents of the target, and those of every newly marked node |
| HealthGraph.Complete | packages/golib/healthgraph/graph.go:60-76 | a set closed in that way is exactly the nodes with a dependency path to the failed node |
| HealthGraph.HealthGraph.ImpactAnalysis | packages/golib/healthgraph/graph.go:60-76 | exactly the registered nodes with a non-empty dependency path to the failed node, sorted, once each |
| DependencyIndex.IndexIsHistory | packages/golib/health/dependency.go:47-63 | the reverse index holds every dependency any registration ever declared, and nothing else |
| DependencyIndex.ExactIffNothingDropped | packages/golib/health/dependency.go:47-63 | registering a service keeps the index in step with the declared dependencies if and only if the new list drops nothing from the one it replaces |
| DependencyIndex.OnceMeansExact | packages/golib/health/dependency.go:33-64 | when each service is registered once the index is exact |
| DependencyIndex.SameExactly | packages/golib/health/dependency.go:75-104 | what reaches each service over the index is what reaches it over the declared dependencies if and only if every dependency ever declared still follows from those that stand |
| DependencyIndex.ListsAgree | packages/golib/health/dependency.go:75-91 | for one service ImpactOf and ImpactAnalysis give the same list if and only if the same names reach it |
| DependencyIndex.AnswersAgreeExactly | packages/golib/health/dependency.go:47-91 | for every history of registrations the two packages agree on all services if and only if every dependency ever declared, those since dropped included, still follows from those that stand |
| DependencyIndex.AnswersAgree | packages/golib/health/dependency.go:75-91 | in particular as long as the index is exact |
| DependencyIndex.ReregistrationDisagrees | packages/golib/health/dependency.go:47-63 | registering any service again without its one dependency leaves an edge that only ImpactOf still sees, and the lists differ |
| DependencyIndex.LatestStands | packages/golib/health/dependency.go:33-61 | a registration replaces what its service has declared and no other, and makes the services it names known |
| DependencyIndex.IndexListsOnce | packages/golib/health/dependency.go:55-60 | however often a dependency is declared, its dependent is listed once |
| DependencyIndex.DependencyGraph.AddService | packages/golib/health/dependency.go:31-64 | the new dependency list and flag of the service, missing dependencies created, and the service listed once with each |
| DependencyIndex.DependencyGraph.AddDependent | packages/golib/health/dependency.go:50-63 | creates the dependency if missing and lists the dependent unless it is listed |
| DependencyIndex.DependencyGraph.CollectDependents | packages/golib/health/dependency.go:93-104 | keeps: the result lists the visited set once each, all of it depends on the service, and everything newly visited has its dependents visited |
| DependencyIndex.DependencyGraph.Collect | packages/golib/health/dependency.go:85-87 | collects exactly the names with a path of indexed edges to the service, once each, on cyclic graphs too |
| DependencyIndex.DependencyGraph.ImpactOf | packages/golib/health/dependency.go:75-91 | that set, sorted; nothing for an unknown service |
| HashRing.RemoveOnlyRemoves | packages/golib/hashring/hashring.go:57-74 | removing a node takes it out of every key's preference order and changes nothing else, whatever the hashes |
| HashRing.RemoveMovesOnlyItsKeys | packages/golib/hashring/hashring.go:57-95 | so Get changes for no key the removed node did not own |
| HashRing.AddThenRemove | packages/golib/hashring/hashring.go:37-74 | removing what was just added gives back the very ring, when no points of different old nodes collide |
| HashRing.AddOnlyInserts | packages/golib/hashring/hashring.go:37-55 | when no points of different old nodes collide, adding a node inserts it into every key's preference order and changes nothing else, so keys that move at all move to it |
| HashRing.AddingOnlyInsertsExactly | packages/golib/hashring/hashring.go:37-55 | that holds of all rings over the nodes and all additions of the node if and only if no points of different old nodes collide |
| HashRing.HistoryDoesNotMatter | packages/golib/hashring/hashring.go:37-95 | when no points of different nodes collide, two rings over the same nodes give every key the same preference order, whatever additions and removals built them |
| HashRing.CollisionDisagrees | packages/golib/hashring/hashring.go:52-54 | where points of different nodes collide, two sorted arrangements of the same points give some key different owners |
| HashRing.HistoryIsForgottenExactly | packages/golib/hashring/hashring.go:37-95 | all rings over the same nodes give every key the same preference order if and only if no points of different nodes collide |
| HashRing.PreferenceIsPermutation | packages/golib/hashring/hashring.go:97-127 | a key's preference order names every node exactly once |
| HashRingOwners.OwnerIsNext | packages/golib/hashring/hashring.go:77-95 | the owner of a key is the node of the least point at or after its hash, or of the least point of all |
| HashRingOwners.PreferredEarlier | packages/golib/hashring/hashring.go:112-125 | of two nodes the one whose first point comes earlier in the walk is preferred |
| HashRingOwners.TextNamesPoint | packages/golib/hashring/hashring.go:153-156 | the text of a virtual node determines its node and its number |
| HashRingOwners.NodesApart | packages/golib/hashring/hashring.go:43-54 | virtual nodes of different nodes collide only where the hash collides on their texts |
| HashRingOwners.ReplicasApart | packages/golib/hashring/hashring.go:43-49 | so do those of one node |
| HashRing.Ring.constructor | packages/golib/hashring/hashring.go:26-35 | an empty ring with a positive number of replicas, fit for Add unless there are more than 10^10 |
| HashRing.Ring.Add | packages/golib/hashring/hashring.go:37-55 | the ring is a sorted arrangement of exactly the virtual nodes of the old nodes and the new one; a known node changes nothing |
| HashRing.Ring.Remove | packages/golib/hashring/hashring.go:57-74 | drops the virtual nodes of the node and keeps the others in order; the capacity computed for them is never negative |
| HashRing.Ring.Search | packages/golib/hashring/hashring.go:86-88 | the binary search finds the first point at or after the hash |
| HashRing.Ring.Get | packages/golib/hashring/hashring.go:76-95 | the first preference of the key, wrapping around; empty exactly for an empty ring |
| HashRing.Ring.GetN | packages/golib/hashring/hashring.go:97-127 | the first n preferences: min(n, number of nodes) distinct nodes starting with Get, none for n <= 0 |
| HashRing.Walk | packages/golib/hashring/hashring.go:114-126 | the loop collects nodes not seen before, clockwise with wrap-around, until there are enough |
| HashRing.AppendPoints | packages/golib/hashring/hashring.go:47-50 | the virtual nodes of a node go to the end of the slice, and a panic ends the loop if and only if there are more than 10^10 |
| HashRing.KeepOthers | packages/golib/hashring/hashring.go:67-72 | Remove's loop keeps exactly the points of other nodes, in order |
| HashRing.Itoa | packages/golib/hashring/hashring.go:158-170 | filling ten bytes from the back yields the decimal digits of every number below 10^10, and runs out of buffer on every other |
| Cbor.HeadRoundTrip | packages/golib/cbor/cbor.go:51-67 | a head of any width reads back as its major type and value, wherever it stands and whatever follows (section 3 of RFC 8949) |
| Cbor.HeadIsShortest | packages/golib/cbor/cbor.go:51-67 | no bytes readHead maps to that value are shorter than what writeHead emits (section 4.1 of RFC 8949) |
| Cbor.HeadByteBits | packages/golib/cbor/cbor.go:144-147 | on bytes, or-ing and masking the head are the sums and remainders of the model |
| Cbor.RoundTrip | packages/golib/cbor/cbor.go:69-112 | decoding the encoding of any tree of uint64, int64, byte strings, text, bools, arrays and maps returns it and consumes exactly its bytes, with anything before and after |
| Cbor.EncodingIsUnambiguous | packages/golib/cbor/cbor.go:69-112 | trees of one shape with the same bytes, or one a prefix of the other, are equal |
| Cbor.UintReadAsInt | packages/golib/cbor/cbor.go:196-209 | DecodeInt returns an encoded uint64 unchanged if and only if it is below 2^63 |
| CborErrors.MostSignificantFirst | packages/golib/cbor/cbor.go:51-67 | arguments stand most significant byte first (section 3 of RFC 8949) |
| CborErrors.RfcExamples | packages/golib/cbor/cbor.go:51-112 | examples from appendix A of RFC 8949 |
| CborErrors.TypesAreChecked | packages/golib/cbor/cbor.go:185-268 | each Decode call reads exactly the heads of its own major types and refuses every other as an invalid type |
| CborErrors.LengthsAreChecked | packages/golib/cbor/cbor.go:212-245 | a string is read whole, or ends unexpectedly, or panics when its length leaves the range of int |
| CborErrors.BoolsAreChecked | packages/golib/cbor/cbor.go:271-284 | DecodeBool reads two byte values and refuses the rest |
| CborErrors.CutShortFails | packages/golib/cbor/cbor.go:140-284 | no proper prefix of the encoding of any tree decodes: it ends unexpectedly |
| CborObjects.LengthCheck | packages/golib/cbor/cbor.go:220-226 | in 64-bit arithmetic the length check of DecodeBytes fires exactly for lengths past the end whose sum does not overflow |
| CborObjects.Encoder.WriteHead | packages/golib/cbor/cbor.go:51-67 | appends the head of the format |
| CborObjects.Encoder.EncodeUint | packages/golib/cbor/cbor.go:69-72 | appends the encoding |
| CborObjects.Encoder.EncodeInt | packages/golib/cbor/cbor.go:74-81 | appends the encoding, negative numbers as -1-v |
| CborObjects.Encoder.EncodeBytes | packages/golib/cbor/cbor.go:83-87 | appends head and bytes |
| CborObjects.Encoder.EncodeText | packages/golib/cbor/cbor.go:89-93 | appends head and bytes |
| CborObjects.Encoder.EncodeArrayHead | packages/golib/cbor/cbor.go:95-98 | appends the head, negative lengths converted as Go does and read back as they were |
| CborObjects.Encoder.EncodeMapHead | packages/golib/cbor/cbor.go:100-103 | appends the head, negative lengths converted as Go does and read back as they were |
| CborObjects.Encoder.EncodeBool | packages/golib/cbor/cbor.go:105-112 | appends the simple value |
| CborObjects.Decoder.ReadHead | packages/golib/cbor/cbor.go:140-182 | the reader of the format, with the cursor left where the code leaves it on every error |
| CborObjects.Decoder.DecodeUint | packages/golib/cbor/cbor.go:184-194 | the same, for unsigned integers |
| CborObjects.Decoder.DecodeInt | packages/golib/cbor/cbor.go:196-209 | the same, for signed integers, with Go's conversion of large values |
| CborObjects.Decoder.DecodeString | packages/golib/cbor/cbor.go:211-244 | the same, for byte strings and text, a length beyond int ending in a panic |
| CborObjects.Decoder.DecodeLength | packages/golib/cbor/cbor.go:246-268 | the same, for array and map heads |
| CborObjects.Decoder.DecodeBool | packages/golib/cbor/cbor.go:270-284 | the same, for bools |
| Lru.ApplyKeeps | packages/golib/lru/lru.go:49-120 | every operation keeps the recency list duplicate-free and within capacity |
| Lru.RunKeeps | packages/golib/lru/lru.go:49-120 | so does every run |
| Lru.SetThenLookup | packages/golib/lru/lru.go:62-79 | after Set the value comes back and is most recent, every other key keeps its value, and a full cache given a new key loses exactly its last one |
| Lru.ApplyKeepsInside | packages/golib/lru/lru.go:49-120 | each operation keeps the list of a smaller cache equal to the list of a larger one cut down to its keys, in the same order |
| Lru.LargerCacheIncludes | packages/golib/lru/lru.go:49-120 | after the same operations a larger cache holds every entry of a smaller one |
| LruRecency.RecencyOrder | packages/golib/lru/lru.go:50-79 | in every run the keys stand in strictly decreasing order of last use, a use being a Set or a successful Get |
| LruRecency.EvictsLeastRecentlyUsed | packages/golib/lru/lru.go:63-79 | a Set drops a key exactly when the cache is full, the key set is new, and the one dropped is the least recently used |
| LruRecency.OthersKeepValues | packages/golib/lru/lru.go:50-121 | a Get changes no value, a Delete takes out its key alone, a Clear everything |
| LruRecency.ValueIsLatest | packages/golib/lru/lru.go:50-79 | a cached key has the value last set for it |
| LruObjects.Cache.constructor | packages/golib/lru/lru.go:33-47 | an empty cache with a positive capacity |
| LruObjects.Cache.Get | packages/golib/lru/lru.go:49-60 | the list's value, and its key moved to the front |
| LruObjects.Cache.Set | packages/golib/lru/lru.go:62-79 | the list operation; onEvict is called for the last key alone, and only when a full cache gets a new key |
| LruObjects.Cache.Refresh | packages/golib/lru/lru.go:67-71 | an existing element moves to the front with the new value |
| LruObjects.Cache.PushFront | packages/golib/lru/lru.go:77-78 | a new element comes first |
| LruObjects.Cache.Delete | packages/golib/lru/lru.go:81-92 | the list operation, with onEvict called for what was removed |
| LruObjects.Cache.Clear | packages/golib/lru/lru.go:114-120 | the list operation, without onEvict |
| LruObjects.Cache.EvictOldest | packages/golib/lru/lru.go:134-140 | drops exactly the last entry, nothing on an empty list |
| LruObjects.Cache.RemoveElement | packages/golib/lru/lru.go:142-149 | map and list lose the same element and stay in agreement |
| LruObjects.Cache.Keys | packages/golib/lru/lru.go:122-132 | the keys of the list, most recent first |
| JsonPointer.ParsePath | packages/golib/jsonpatch/jsonpatch.go:152-166 | the loops split at slashes, drop a leading one and unescape each token |
| JsonPointer.UnescapeEscape | packages/golib/jsonpatch/jsonpatch.go:161-164 | escaping a token and unescaping it in the code's order gives it back (section 4 of RFC 6901) |
| JsonPointer.ParseFormat | packages/golib/jsonpatch/jsonpatch.go:152-166 | escaped tokens parse back to themselves if and only if they are not the single empty token |
| JsonPointer.AtoiOfDigits | packages/golib/jsonpatch/jsonpatch.go:181-184 | decimal digits are read as the index they denote |
| JsonPointer.AtoiOfSigned | packages/golib/jsonpatch/jsonpatch.go:180 | array indexes are read with leading zeros and signs, within int64 |
| JsonPatch.GetAfterAdd | packages/golib/jsonpatch/jsonpatch.go:168-247 | get after add returns the value if and only if the add did not append with "-" |
| JsonPatch.GetAfterAddLanding | packages/golib/jsonpatch/jsonpatch.go:194-247 | and at the place the add put it, always |
| JsonPatch.RemoveAfterAdd | packages/golib/jsonpatch/jsonpatch.go:194-293 | removing what was added restores the document if and only if the add overwrote nothing |
| JsonPatch.AddAfterRemove | packages/golib/jsonpatch/jsonpatch.go:194-293 | remove succeeds exactly where get does, the root excepted, and adding the value back undoes it |
| JsonPatch.ReplaceIsPut | packages/golib/jsonpatch/jsonpatch.go:111-118 | remove then add exchanges the value in place, and fails only at the root or a missing path |
| JsonPatch.PutsCommute | packages/golib/jsonpatch/jsonpatch.go:111-118 | exchanges on diverging paths commute |
| JsonPatch.ReplacesCommute | packages/golib/jsonpatch/jsonpatch.go:81-118 | patches of two replaces on diverging existing paths succeed in both orders with the same document |
| JsonPatch.MoveAndBack | packages/golib/jsonpatch/jsonpatch.go:119-128 | a move followed by its reverse restores the document if and only if it overwrote nothing (section 4.4 of RFC 6902) |
| JsonPatch.MoveOpAndBack | packages/golib/jsonpatch/jsonpatch.go:81-128 | a patch of two such move operations on pointer texts does if and only if the first neither overwrites nor appends |
| JsonPatchLaws.TestOnlyGuards | packages/golib/jsonpatch/jsonpatch.go:135-148 | a test anywhere in a patch lets it go on exactly when the value there at that point is the one expected, and changes nothing; otherwise the whole patch fails (section 4.6 of RFC 6902) |
| JsonPatchLaws.AddThenTest | packages/golib/jsonpatch/jsonpatch.go:103-148 | what an add put in place a test finds, and nothing else |
| JsonPatchLaws.AddThenRemove | packages/golib/jsonpatch/jsonpatch.go:103-111 | a remove undoes an add exactly when that neither overwrote nor appended |
| JsonPatchLaws.CopyThenTest | packages/golib/jsonpatch/jsonpatch.go:129-148 | after a copy a test finds at the target exactly what it would have found at the source (section 4.5 of RFC 6902) |
| JsonPatchLaws.MoveThenTest | packages/golib/jsonpatch/jsonpatch.go:119-148 | after a move too, which is a remove followed by an add |
| JsonPatchLaws.EditsLeaveAside | packages/golib/jsonpatch/jsonpatch.go:194-293 | an add or a remove changes no value aside of it |
| JsonPatchLaws.ElementsShift | packages/golib/jsonpatch/jsonpatch.go:221-237 | in an array an add moves the elements from its index on one place up and a remove one place down |
| JsonPatchLaws.AddPanicsExactly | packages/golib/jsonpatch/jsonpatch.go:226-234 | an add panics exactly when it reaches an array with a negative index |
| JsonPatchLaws.MalformedExactly | packages/golib/jsonpatch/jsonpatch.go:46-85 | a patch is refused as malformed exactly when some operation in it lacks a field or is unknown |
| JsonPatch.Apply | packages/golib/jsonpatch/jsonpatch.go:81-101 | validates the whole patch before touching the document, then stops at the first failing operation |
| Circuit.OpensExactly | packages/golib/circuithttp/circuithttp.go:174-190 | from closed the breaker opens exactly on the outcome that completes FailureThreshold consecutive failures recorded while it stayed closed, late outcomes included |
| Circuit.ClosesExactly | packages/golib/circuithttp/circuithttp.go:158-172 | from half-open it closes exactly by Reset or on the success that makes SuccessThreshold since it became half-open, and opens exactly on a failure |
| Circuit.OpenHoldsBack | packages/golib/circuithttp/circuithttp.go:134-156 | while open a request is admitted exactly when OpenDuration has passed since the latest failure recorded anywhere; nothing but that or Reset ends the open state |
| Circuit.ProbesAndLeftover | packages/golib/circuithttp/circuithttp.go:134-190 | in every run the half-open probes in flight, whichever stay admitted them, and while half-open all requests in flight, are at most HalfOpenMax plus the most requests that were still in flight when the breaker became half-open |
| Circuit.LeftoverLetsProbesIn | packages/golib/circuithttp/circuithttp.go:134-190 | under every configuration and for every number, some run that leaves that many requests in flight when the breaker becomes half-open has HalfOpenMax plus that many half-open probes in flight |
| Circuit.HalfOpenMaxHoldsExactly | packages/golib/circuithttp/circuithttp.go:42-48 | over all runs with at most a given number of requests left in flight when the breaker becomes half-open, m limits the concurrent half-open requests if and only if HalfOpenMax plus that number is at most m; HalfOpenMax does if and only if none is left |
| Circuit.HalfOpenProbesUnbounded | packages/golib/circuithttp/circuithttp.go:42-48 | over all runs no configuration bounds the half-open probes in flight |
| Circuit.StayProbesInFlight | packages/golib/circuithttp/circuithttp.go:148-169 | the probes admitted in the current half-open stay and still in flight exceed HalfOpenMax at most by the outcomes recorded in it for requests admitted earlier, and so by less than SuccessThreshold |
| Circuit.StraysLetProbesIn | packages/golib/circuithttp/circuithttp.go:148-165 | under every configuration some run has HalfOpenMax + SuccessThreshold - 1 probes admitted in the current stay in flight |
| Circuit.StayLimitHoldsExactly | packages/golib/circuithttp/circuithttp.go:148-165 | HalfOpenMax limits the probes admitted in the current stay, in all runs, if and only if SuccessThreshold is 1 |
| Circuit.TotalsCount | packages/golib/circuithttp/circuithttp.go:113-131 | the totals count the requests begun, those that failed and those turned away |
| Circuit.Transport.constructor | packages/golib/circuithttp/circuithttp.go:79-104 | a closed breaker, unusable settings replaced |
| Circuit.Transport.TransitionLocked | packages/golib/circuithttp/circuithttp.go:192-205 | a change of state clears both counts; no change clears nothing |
| Circuit.Transport.CanProceedNow | packages/golib/circuithttp/circuithttp.go:134-156 | the decision and state of the model |
| Circuit.Transport.RecordSuccessNow | packages/golib/circuithttp/circuithttp.go:158-172 | the state of the model |
| Circuit.Transport.RecordFailureNow | packages/golib/circuithttp/circuithttp.go:174-190 | the state of the model, the failure time recorded in every state |
| Circuit.Transport.ResetNow | packages/golib/circuithttp/circuithttp.go:230-235 | closed, counts cleared only on a change |
| Circuit.Transport.RoundTrip | packages/golib/circuithttp/circuithttp.go:113-132 | admitted or tripped, then, after whatever other requests do meanwhile, recorded once with the classifier's verdict, all three totals in step |
| RateLimits.LeakyWindow | packages/golib/leakybucket/leakybucket.go:31-43 | in any window [s, t] of any run without Reset at most capacity + floor((t-s)/rate) + 1 requests are admitted; with a negative rate, which never leaks, at most capacity |
| RateLimits.DripTwice | packages/golib/leakybucket/leakybucket.go:66-78 | dripping twice is dripping once at the later time |
| RateLimits.QueueIsInvisible | packages/golib/leakybucket/leakybucket.go:45-51 | Queue calls anywhere never change what Allow answers |
| RateDecisions.RefusedExactly | packages/golib/leakybucket/leakybucket.go:31-43 | a request is refused exactly when some window that ends with it has filled the bucket: admitted at least the capacity and one for each drip since it began |
| RateLimits.LeakyBucket.DripNow | packages/golib/leakybucket/leakybucket.go:66-78 | whole drips leave the queue, never below zero, and the clock of drips keeps the remainder |
| RateLimits.LeakyBucket.AllowNow | packages/golib/leakybucket/leakybucket.go:31-43 | the decision and state of the model |
| RateLimits.LeakyBucket.QueueNow | packages/golib/leakybucket/leakybucket.go:45-51 | the depth after dripping |
| RateLimits.LeakyBucket.Reset | packages/golib/leakybucket/leakybucket.go:53-59 | an empty queue from now on |
| RateLimits.RefillPays | packages/golib/limiter/limiter.go:87-96 | a refill grants no more tokens than it takes from the intervals left |
| RateLimits.UprightTakesAll | packages/golib/limiter/limiter.go:87-96 | a negative interval limits exactly as the positive one with the opposite rate |
| RateLimits.LimiterWindow | packages/golib/limiter/limiter.go:83-103 | in any window [s, t] one bucket lets at most Burst + Rate * (floor((t-s)/Interval) + 1) requests through, the signs of Rate and Interval turned when the interval is negative |
| RateDecisions.TakesExactly | packages/golib/limiter/limiter.go:83-103 | of n requests at one time exactly as many get through as there are tokens after the whole intervals are paid in, at most Burst |
| RateDecisions.DryUntilRefilled | packages/golib/limiter/limiter.go:83-103 | a bucket that has run dry lets the next request through exactly when a whole interval has passed since its last refill |
| RateLimits.LimiterBucket.AllowNow | packages/golib/limiter/limiter.go:83-103 | the decision and state of the model |
| Trimming.Trims | packages/golib/durationfmt/durationfmt.go:77 | trimming takes away the white space of Unicode at both ends of a text of bytes, all of it and nothing else |
| Trimming.SpacesAreUnicode | packages/golib/durationfmt/durationfmt.go:77 | white space is the code points with that property of Unicode, in UTF-8 |
| DurationFmt.Format | packages/golib/durationfmt/durationfmt.go:13-49 | the text of every whole number of seconds, negative ones included |
| DurationFmt.Join | packages/golib/durationfmt/durationfmt.go:30-44 | the parts that are not zero, and the seconds when there is no other |
| DurationFmt.Parse | packages/golib/durationfmt/durationfmt.go:74-146 | the parser as a function of the text, every error included |
| DurationFmt.Sum | packages/golib/durationfmt/durationfmt.go:88-140 | the loop ends on every text because each round leaves less of it, and adds up the chunks |
| DurationFmt.NextChunk | packages/golib/durationfmt/durationfmt.go:92-139 | one round: number, unit, product in 64-bit arithmetic, rest |
| DurationRoundTrip.ParseOfText | packages/golib/durationfmt/durationfmt.go:13-146 | every duration that is a whole number of seconds parses back from its text |
| DurationRoundTrip.TextsDiffer | packages/golib/durationfmt/durationfmt.go:13-49 | no two such durations print alike |
| DurationPanics.PanicsExactly | packages/golib/durationfmt/durationfmt.go:107-124 | the parser panics if and only if the text, trimmed and without its sign, is something that parses, or nothing, followed by a number, any lower-case letters and a last byte 0xC2 |
| DurationGrammar.ParsesExactly | packages/golib/durationfmt/durationfmt.go:76-146 | a text parses exactly when, trimmed, it is not empty and spells numbers with units after an optional sign, and then to their sum in 64-bit arithmetic |
| DurationGrammar.FirstErrorDecides | packages/golib/durationfmt/durationfmt.go:88-140 | after readable pieces a missing number, one too large, a missing unit and an unknown unit each give their own error |
| DurationGrammar.PrintsNormalForm | packages/golib/durationfmt/durationfmt.go:15-49 | what Format prints: days, hours below 24, minutes and seconds below 60, in this order, the zeros left out |
| KeyRing.RotationsKeep | packages/golib/crypto/rotation.go:173-199 | after any rotations versions are 1..n, the newest key alone is active, and all keys are still there |
| KeyRing.ActiveIsNewest | packages/golib/crypto/rotation.go:64-70 | Encrypt's first active key is the newest |
| KeyRing.DecryptsOwnKeys | packages/golib/crypto/rotation.go:102-146 | under an ideal AEAD a ring decrypts a ciphertext to its plaintext if and only if it holds its key, whatever the version byte; otherwise it fails |
| KeyRing.OldCiphertextsSurvive | packages/golib/crypto/rotation.go:58-199 | every ciphertext ever produced decrypts to its plaintext after any number of rotations, past version 255 included |
| KeyRing.RightKeyFirst | packages/golib/crypto/rotation.go:122-130 | the right key is tried first if and only if its version is below 256 |
| KeyRing.OwnKeyTriedFirst | packages/golib/crypto/rotation.go:60-146 | among any number of later keys a ciphertext is tried first with the key it was made with exactly when that has a version below 256 |
| KeyRing.DecryptsExactly | packages/golib/crypto/rotation.go:104-146 | any text decrypts exactly when it is encoded, has more than a tag, and some key opens it; otherwise the error says which failed |
| KeyRing.Ring.NewKeyRing | packages/golib/crypto/rotation.go:35-56 | a ring of one active key, or an error unless the key has 32 bytes |
| KeyRing.Ring.Rotate | packages/golib/crypto/rotation.go:173-199 | adds the key as the only active one, or changes nothing unless it has 32 bytes |
| KeyRing.Ring.Encrypt | packages/golib/crypto/rotation.go:58-100 | the ciphertext of the first active key, or an error without one |
| KeyRing.Ring.Decrypt | packages/golib/crypto/rotation.go:102-146 | the function of the ring and the text, every error included |
| KeyRing.Ring.ActiveVersion | packages/golib/crypto/rotation.go:201-212 | the version of the first active key, or 0 |
| CompressWriters.NothingLostOrDoubled | packages/golib/compress/compress.go:118-205 | however writes and WriteHeader calls are split and mixed, the body carries exactly the bytes written, once and in order |
| CompressWriters.DeliversExactly | packages/golib/compress/compress.go:138-188 | the client ends up with what the handler meant if and only if the response is not compressed, or WriteHeader with a final status did not come before its first byte and the handler had announced no encoding of its own |
| CompressWriters.EncodesTwice | packages/golib/compress/compress.go:162-179 | every long enough body of a handler that had encoded it itself goes out packed again, with the outer encoding announced alone |
| CompressWriters.HttpxNothingLostOrDoubled | packages/golib/httpx/compress.go:41-84 | the same, for the httpx writer |
| CompressWriters.HttpxDeliversUnlessHeaderBefore | packages/golib/httpx/compress.go:36-84 | there the announcement is wrong exactly when WriteHeader came with a final status before the threshold of a response that is then compressed |
| CompressWriters.DeferredDeliversExactly | packages/golib/middleware/compress.go:45-96 | in the middleware writer the client ends up with what the handler meant, wherever WriteHeader is called, if and only if the response is not compressed or the handler had announced no encoding of its own |
| CompressWriters.DeferredNothingLostOrDoubled | packages/golib/middleware/compress.go:45-96 | the body carries exactly the bytes written, once and in order, packed as announced or plain |
| CompressWriters.DeferredEncodesTwice | packages/golib/middleware/compress.go:74-88 | every long enough body of a handler that had encoded it itself goes out packed again, with gzip announced alone |
| CompressStatus.StatusKept | packages/golib/compress/compress.go:118-205 | the client gets the first final status if it came before the first byte of the body, else 200 |
| CompressStatus.HttpxStatusKept | packages/golib/httpx/compress.go:36-84 | in httpx, if it came before the body reached the threshold |
| CompressStatus.DeferredStatusKept | packages/golib/middleware/compress.go:41-96 | in the middleware, the last status wherever it came, or 200 when there was none or it was informational |
| CompressObjects.CompressWriter.Write | packages/golib/compress/compress.go:118-136 | buffers until the threshold, then passes on, each byte once |
| CompressObjects.CompressWriter.FlushNow | packages/golib/compress/compress.go:138-181 | decides once: announce and compress, or send the buffer as it is |
| CompressObjects.CompressWriter.WriteHeader | packages/golib/compress/compress.go:183-188 | decides first if bytes are waiting; a final status then sends the header |
| CompressObjects.CompressWriter.Close | packages/golib/compress/compress.go:190-205 | sends what is left and ends the compressed stream |
| CompressObjects.HttpxGzipWriter.WriteHeader | packages/golib/httpx/compress.go:36-39 | goes straight through; a final status sends the header |
| CompressObjects.HttpxGzipWriter.Write | packages/golib/httpx/compress.go:41-71 | buffers until the threshold, then compresses unless an encoding is set or the type is already compressed |
| CompressObjects.HttpxGzipWriter.Flush | packages/golib/httpx/compress.go:73-84 | ends the stream or sends the short buffer |
| CompressObjects.DeferredGzipWriter.WriteHeader | packages/golib/middleware/compress.go:45-47 | only remembers the status |
| CompressObjects.DeferredGzipWriter.Write | packages/golib/middleware/compress.go:49-52 | only buffers |
| CompressObjects.DeferredGzipWriter.Flush | packages/golib/middleware/compress.go:54-96 | sends status, encoding and body once; a second call does nothing |
| Popcount.Kernighan | packages/golib/bitset/bitset.go:69-78 | the loop counts the ones of every 64-bit word |
| Popcount.DropCounts | packages/golib/bitset/bitset.go:73 | x & (x - 1) has exactly one one less |
| Popcount.PairsCount | packages/golib/bloom/bloom.go:142 | after the first round the two-bit fields add up to the ones of the word |
| Popcount.NibblesCount | packages/golib/bloom/bloom.go:143 | the second round keeps that sum in four-bit fields |
| Popcount.BytesCount | packages/golib/bloom/bloom.go:144 | the third keeps it in eight-bit fields |
| Popcount.GatherSums | packages/golib/bloom/bloom.go:145 | the product leaves the sum of all eight bytes in the top one |
| Popcount.Parallel | packages/golib/bloom/bloom.go:140-146 | the parallel popcount equals the number of ones of every 64-bit word, and so the Kernighan loop |
| Words.SetBit | packages/golib/bitset/bitset.go:30 | or-ing a mask sets that bit and no other |
| Words.ClearBit | packages/golib/bitset/bitset.go:38 | and-not with a mask clears that bit and no other |
| Words.ToggleBit | packages/golib/bitset/bitset.go:54 | xor with a mask flips that bit and no other |
| BitPositions.CountsPositions | packages/golib/bitset/bitset.go:61-67 | the ones of all words are as many as the positions set |
| BitSet.BitSet.constructor | packages/golib/bitset/bitset.go:12-22 | an empty set of the given size, none below zero |
| BitSet.BitSet.Set | packages/golib/bitset/bitset.go:24-30 | adds the position if it is inside the size, else nothing |
| BitSet.BitSet.Clear | packages/golib/bitset/bitset.go:32-38 | removes the position if it is inside the size, else nothing |
| BitSet.BitSet.Test | packages/golib/bitset/bitset.go:40-46 | inside the size and in the set |
| BitSet.BitSet.Toggle | packages/golib/bitset/bitset.go:48-54 | flips the position if it is inside the size, else nothing |
| BitSet.BitSet.Count | packages/golib/bitset/bitset.go:61-67 | the number of positions set |
| BitSet.BitSet.ClearAll | packages/golib/bitset/bitset.go:80-85 | the empty set |
| BitSet.BitSet.SetAll | packages/golib/bitset/bitset.go:87-92 | sets every position; Count then equals the size if and only if the size is a multiple of 64 |
| Bloom.NoFalseNegatives | packages/golib/bloom/bloom.go:65-84 | after any run of Add and Clear every item added since the last Clear is contained, with 64-bit wrap-around in the probes |
| Bloom.SetWhenProbed | packages/golib/bloom/bloom.go:53-63 | a bit is set if and only if some item present probes it |
| Bloom.ClaimsExactly | packages/golib/bloom/bloom.go:70-84 | Contains says yes if and only if every probe of the item is shared with items present |
| Bloom.PositionIs | packages/golib/bloom/bloom.go:57-59 | the i-th probe is h1 + i * h2, as a 64-bit register holds it, modulo the size |
| Bloom.ProbesMeetExactly | packages/golib/bloom/bloom.go:57-59 | while nothing wraps around two probes of an item meet exactly when the size divides their distance times h2 |
| Bloom.Filter.constructor | packages/golib/bloom/bloom.go:33-49 | an empty filter of the least multiple of 64 bits that holds the bits asked for, with the hash functions asked for, at least one |
| Bloom.Filter.Add | packages/golib/bloom/bloom.go:52-63 | sets exactly the probes of the item, and counts it |
| Bloom.Filter.Contains | packages/golib/bloom/bloom.go:70-84 | all probes of the item are set |
| Bloom.Filter.Clear | packages/golib/bloom/bloom.go:118-127 | nothing set, nothing counted |
| Bloom.Filter.OnesSet | packages/golib/bloom/bloom.go:109-112 | the loop of FillRatio adds up to the number of positions set |

## Left out

- Memory model and locks: a critical section under a Go mutex is one step, a closer call and the slot it frees included; only
  channel and atomic operations outside of it interleave.
- Int64 overflow of fencing tokens, connection ids, metrics and clock sums: the counters are unbounded.
- Bulkhead: names, the length of the queue timeout and reading the metrics one by one; the timer or the context may fire at any time.
- Connpool: health checks, MinIdle, Stats, errors of the closer, and callers that release a connection twice.
- ConnpoolObjects.Pool.Acquire: no other goroutine moves between its steps; `Connpool` covers the interleavings.
- ConnpoolObjects.Pool.Grow: likewise.
- HealthGraph: UpdateStatus, CriticalPath and OverallStatus, which look at one node or one edge at a time.
- DependencyIndex: DependenciesOf, CriticalPath and the other read-only queries over forward edges.
- HashRing: `Nodes` and `Size`; SHA-256 is any function from strings to numbers.
- HashRing.Ring.constructor: a ring of more than 10^10 replicas can be made, but its Add, which panics, is not modelled.
- Cbor: tags and nulls, which have no decoder, and hostile lengths beyond int, which are only shown to end in a panic.
- LruObjects: container/list is a sequence of element references, so the links of its nodes are not modelled; `Has`, `Len` and `Cap` are one-liners.
- JsonPatch: JSON text, and Go's edits of maps and slices in place; documents are values, so the sharing after `copy` is not seen.
- JsonPatch.Apply: `test` compares values where the code compares their canonical JSON texts.
- Circuit: the transition callback, the response itself, and a base transport that panics, whose request never records an outcome; clocks never go back.
- RateLimits: a rate or interval of zero, by which the code divides and panics; the registry's creation of buckets is a race and only one bucket is modelled.
- DurationFmt: FormatShort.
- DurationFmt.Format: durations that are not whole seconds go through floating point.
- KeyRing: AES-GCM is an ideal AEAD and base64 an invertible function; key copies and creation times.
- CompressWriters: gzip and deflate put every byte on the wire in order, and the client undoes what was put there under the name announced, though `compress/compress.go` announces "deflate" for raw DEFLATE data where the HTTP coding of that name is the zlib format (section 8.4.1.2 of RFC 9110); negotiation, skipped paths, Vary and Content-Length, write errors, and the count httpx returns from the write that starts compression.
- CompressWriters.DeliversExactly: Content-Type and Content-Encoding are set before the first write and stay; a handler that changes them between writes is not modelled, here and for the other two writers.
- Responses: statuses without a body (101, 204, 304), HEAD requests, and codes outside 100-999, for which net/http panics.
- Bloom: sizing, the estimated rate and the division of FillRatio are floating point.
- Bloom.Filter.constructor: takes the numbers of bits and hash functions that the floating-point formulas of New give.
- BitSet: And, Or, IsEmpty and Equal.
- Everything outside packages/golib, and its other packages: HTTP, Redis and logging wrappers, configuration, and services.
