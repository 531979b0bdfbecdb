# Coordination code of the CML cloud manager, modelled and proved in Dafny

The project models the parts of the control plane that coordinate concurrent actors, and a
few self-contained algorithms around them, and proves what they guarantee over all inputs
and all runs. `dafny verify dfyconfig.toml` checks everything.

- **Leader election** (`EtcdLeases`, `ElectionNode`, `ElectionSystem`, `ElectionTheorems`,
  `ElectionOutcomes`, `LeaderElectionService`, `KeepaliveTiming`). Any number of services around one etcd. Each
  stretch of code between two awaits is one step; a run is any sequence of steps, clock ticks,
  lease expiries, answers, connection errors, late or repeated executions of requests already
  sent, starts and stops. `Run` is a function of the action sequence, so each theorem is about
  all action sequences. `LeaderElectionService.Service` is the object with its fields; its
  methods refine the step functions.
- **Port allocation** (`PortPool`, `PortLedger`, `PortAllocationService`, `PortRaces`). The scan
  for free ports, the service and its store as objects, runs of calls that do not overlap, and
  runs of calls that do.
- **Retry on conflicts** (`OptimisticRetry`), **dependency walk** (`DependencyWalk`), **session
  stores** (`SessionStores`), **lab start** (`LabStart`), **port mapping** (`PortMapping`),
  **duplicate repair** (`DuplicateRepair`), **event de-duplication** (`EventDedup`), **path
  normalisation** (`PathNormalization`).

## Where the code differs from what is promised

In these places the model follows the code. Each has a concrete run or an exact condition.

- `allocate_session_ports` and `release_session_ports` are documented as atomic, using
  compare-and-swap, but read the worker's map and write a whole map back
  (src/control-plane-api/integration/services/etcd_state_store.py:466, 493-495). What is stored
  is always free of conflicts (`PortRaces.StoredIsConsistent`), but a stale write drops grants of
  others, and two callers can hold one port (`PortRaces.RaceGrantsTwice`). A run loses nothing
  exactly when at each of its writes no other session's entry has moved since it was read
  (`PortRaces.LosesNothingIff`); comparing the revision, which is read and not used, is
  enough (`PortRaces.GuardedWritesLoseNothing`).
- `allocate_ports` may answer failure although it has committed the ports: exactly when the lowest
  or highest port it picks lies outside 2000-65535, which `PortAllocation` does not accept
  (`PortAllocationService.AllocationMeans`, with a call for every such range in
  `PortAllocationService.CommittedThoughRefused`). It never happens if and only if the range lies
  inside (`PortAllocationService.NeverRejectedIff`), as the default one does.
- `mark_processed` reads `lease.id`, while the lease of the control plane's etcd client has
  `lease_id`; the error is swallowed, so nothing is ever recorded and every delivery is processed
  again (`EventDedup.DeliveriesAccounted`, `EventDedup.ExactlyOnceIff`, `EventDedup.ProcessedTwice`). The model keeps the
  attribute as a parameter, because the shared core library has a lease with `id`.
- A session that allocates ports while still holding some can break the watermark bound on port
  numbers (`PortLedger.ReallocationPassesWatermark`). The bound holds all through a run exactly
  when such a session asks for no more than the largest use so far leaves
  (`PortLedger.WatermarkIff`); a bound that counts the demand holds always.
- A service with a dead lease does not always drop it at its first answered refresh: a renewal that
  was on its way when the lease died is survived, once (`ElectionTheorems.DeadLeaseDropped`,
  `ElectionTheorems.SurvivedIff`, with a run in `ElectionOutcomes.StaleRenewal`).
- A lease TTL of one second is lost even with etcd always reachable, because the keepalive
  interval is then one second too (`KeepaliveTiming.DefaultLeases`).
- Refreshing a session that has expired but is still in memory revives it there and not in Redis
  (`SessionStores.LapsedRefreshSplits`, `SessionStores.AlikeThroughoutIff`).

## Assumptions

- etcd executes each request atomically; a lease that has ended does not come back, its id is not
  reused, and the leader key disappears with its lease. Nobody else writes the leader key.
- `start_async` has returned before `stop_async` is called, and they do not overlap.
- asyncio resumes ready tasks first in, first out; a cancelled task touches no field again.
- The repository behind the retry decorator refuses a write exactly when the version has moved on,
  and decorated operations reload the record inside the call.
- Both session stores are configured with the same default timeout and see the same clock.

## Model

| member | source | states |
|---|---|---|
| EtcdLeases.ServeFollows | src/control-plane-api/integration/services/etcd_client.py:356-531 | no request revives a dead lease, and the leader key changes only once the lease it is attached to has ended |
| EtcdLeases.ExpireFollows | src/control-plane-api/integration/services/etcd_client.py:481-515 | the same for a lease that runs out |
| ElectionNode.CampaignStepKeeps | src/control-plane-api/application/services/leader_election_service.py:385-460 | every stretch of the acquiring coroutine keeps the node invariant: flag, lease and time agree, rounds alternate, at most one acquisition and one maintaining loop |
| ElectionNode.KeepaliveStepKeeps | src/control-plane-api/application/services/leader_election_service.py:478-535 | the same for every stretch of the keepalive loop |
| ElectionNode.StopStepKeeps | src/control-plane-api/application/services/leader_election_service.py:304-345 | the same for every stretch of `stop_async`, from any state after `start_async` has returned |
| ElectionNode.StartKeeps | src/control-plane-api/application/services/leader_election_service.py:276-302 | the same for `start_async` |
| ElectionSystem.AnswerKeeps | src/control-plane-api/integration/services/etcd_state_store.py:541-582 | an answered etcd call keeps the system invariant: claimed leases are disjoint between services, and a lease that won the key keeps it while it lives |
| ElectionSystem.StepKeeps | src/control-plane-api/application/services/leader_election_service.py:385-563 | every action of every service, of etcd, of the clock and of the network keeps the system invariant |
| ElectionSystem.RunKeeps | src/control-plane-api/application/services/leader_election_service.py:385-563 | so does every run |
| ElectionTheorems.ExclusiveLeader | src/control-plane-api/application/services/leader_election_service.py:385-563 | in every run at most one service has `is_leader` with a lease etcd honours; it is the one the leader key names, and every other believer holds a dead lease |
| ElectionOutcomes.BeliefIsNotExclusive | src/control-plane-api/application/services/leader_election_service.py:496-499 | `is_leader` alone is not exclusive: a run in which two services answer true |
| ElectionTheorems.TransitionsAlternate | src/control-plane-api/application/services/leader_election_service.py:440-547 | in every run a change of belief comes with exactly one round of the matching callbacks, and rounds strictly alternate, each loss being of the lease acquired just before |
| ElectionTheorems.RunningLeaderIsMaintained | src/control-plane-api/application/services/leader_election_service.py:453-460 | a running leader is in state LEADER and always has a live keepalive loop |
| ElectionTheorems.DeadLeaseDropped | src/control-plane-api/application/services/leader_election_service.py:483-535 | a believer with a dead lease drops it, with one round of lost callbacks, at the first refresh that gets an answer, however the run goes on; the one exception, survived at most once, is a renewal that was on its way already when the lease died |
| ElectionTheorems.SurvivedIff | src/control-plane-api/application/services/leader_election_service.py:504-519 | some continuation lets the belief survive an answered refresh of the dead lease if and only if such a renewal is on its way |
| ElectionOutcomes.StaleRenewal | src/control-plane-api/application/services/leader_election_service.py:504-519 | a reachable state in which it is: etcd renews the lease, and the lease runs out before the service sees the answer |
| ElectionTheorems.StoppedStaysQuiet | src/control-plane-api/application/services/leader_election_service.py:304-345 | a stopped service has no flag, no lease and no loop that can act, and nothing but a new start changes it |
| ElectionTheorems.StopMovesOn | src/control-plane-api/application/services/leader_election_service.py:323-344 | no interleaved action sets a stop back; the awaited one, and an answer to the release call as well as its failure, brings it closer to its end |
| ElectionTheorems.StopCompletes | src/control-plane-api/application/services/leader_election_service.py:304-345 | however the run goes on from any reachable state with a stop under way, racing with a pending acquisition or with a failing or answered release: once as many actions as the phase of the stop still can take, six at most, have helped it or found it done, the service has been stopped and quiet, and stays so until a new start |
| ElectionTheorems.StopAbsorbs | src/control-plane-api/application/services/leader_election_service.py:323-344 | without a new start no continuation contains more than six steps that help a stop under way |
| ElectionTheorems.StopNeverStuck | src/control-plane-api/application/services/leader_election_service.py:323-344 | from each such state there are continuations, without a new start and of every length from that number of steps on, all of whose actions serve the stop, and they end quiet |
| ElectionOutcomes.AcquireWorks | src/control-plane-api/application/services/leader_election_service.py:276-302 | with the leader key absent, a started service becomes the leader under a fresh lease, with the key, the time, a keepalive loop and one round of callbacks; other services are untouched |
| ElectionOutcomes.StartBehindLeader | src/control-plane-api/application/services/leader_election_service.py:276-302 | with the key taken it ends on standby, its unused lease revoked, its campaign loop under way |
| ElectionOutcomes.StandbyTakesOver | src/control-plane-api/application/services/leader_election_service.py:385-460 | whenever the key is gone, the next round of a standby makes it the leader, honoured by etcd |
| ElectionOutcomes.StandbyStaysBehind | src/control-plane-api/application/services/leader_election_service.py:385-438 | while the key is there, a round leaves a standby on standby with its unused lease revoked, and it will try again |
| ElectionOutcomes.AttemptBreaksOff | src/control-plane-api/application/services/leader_election_service.py:402-438 | whichever etcd call of an attempt fails, nothing but the next round follows |
| ElectionOutcomes.CallbacksEnd | src/control-plane-api/application/services/leader_election_service.py:389-395 | the campaign loop is there again once the callbacks of a new leader have been called |
| ElectionOutcomes.KeepaliveRenews | src/control-plane-api/application/services/leader_election_service.py:478-515 | a round of the keepalive loop gives a live lease its full TTL from now and changes nothing else |
| ElectionOutcomes.KeepaliveRidesOut | src/control-plane-api/application/services/leader_election_service.py:496-499 | after a connection error flag, lease and everything else are as before, and a further refresh is sent |
| ElectionOutcomes.KeepaliveDrops | src/control-plane-api/application/services/leader_election_service.py:491-535 | a refused refresh drops leadership with one round of lost callbacks and ends the loop |
| ElectionOutcomes.LeadsAgain | src/control-plane-api/application/services/leader_election_service.py:389-535 | a leader whose lease has died drops it and, with the key gone, leads again under a new one |
| ElectionOutcomes.StopReleases | src/control-plane-api/application/services/leader_election_service.py:304-345 | a leader that stops with its release answered ends quiet and leaves neither its lease nor its key in etcd |
| ElectionOutcomes.ReleaseIsFinal | src/control-plane-api/application/services/leader_election_service.py:549-563 | however it was reached, an answered release has ended the lease for good, and the key is not attached to it |
| LeaderElectionService.Service.constructor | src/control-plane-api/application/services/leader_election_service.py:135-173 | a new service is stopped, without leadership, tasks or history, and satisfies the node invariant |
| LeaderElectionService.Service.Start | src/control-plane-api/application/services/leader_election_service.py:276-302 | refuses exactly when already running; otherwise refines the start stretch and keeps the node invariant |
| LeaderElectionService.Service.OnBecomeLeader | src/control-plane-api/application/services/leader_election_service.py:440-460 | refines the become-leader stretch |
| LeaderElectionService.Service.OnLoseLeadership | src/control-plane-api/application/services/leader_election_service.py:525-535 | refines the lose-leadership stretch: callbacks only if it was leader |
| LeaderElectionService.Service.ResumeCampaign | src/control-plane-api/application/services/leader_election_service.py:385-438 | refines every stretch of the acquiring coroutine and keeps the node invariant |
| LeaderElectionService.Service.ResumeKeepalive | src/control-plane-api/application/services/leader_election_service.py:478-519 | refines every stretch of the keepalive loop and keeps the node invariant |
| LeaderElectionService.Service.CallStop | src/control-plane-api/application/services/leader_election_service.py:304-330 | refines the first stretch of `stop_async` and keeps the node invariant; does nothing on a service that is not running, which is quiet then |
| LeaderElectionService.Service.CancelCampaign | src/control-plane-api/application/services/leader_election_service.py:332-338 | refines the cancelling of the campaign task |
| LeaderElectionService.Service.ReleaseIfLeader | src/control-plane-api/application/services/leader_election_service.py:340-345 | refines the choice between releasing and finishing |
| LeaderElectionService.Service.ResumeStop | src/control-plane-api/application/services/leader_election_service.py:326-345 | refines every later stretch of `stop_async` and keeps the node invariant; when none is left the service is quiet |
| KeepaliveTiming.Keepalive | src/control-plane-api/application/services/leader_election_service.py:478-502 | the loop keeps its lease in a run exactly when every attempt of that run falls before the expiry |
| KeepaliveTiming.KeptIffWithinTtl | src/control-plane-api/application/services/leader_election_service.py:76-82 | the lease survives every run with failure bursts of at most k if and only if interval + k < ttl |
| KeepaliveTiming.HonouredIffKept | src/control-plane-api/application/services/leader_election_service.py:478-519 | etcd, driven through the refreshes of a run, honours a freshly granted lease at its end exactly when the run keeps it |
| KeepaliveTiming.LeaseSurvivesIff | src/control-plane-api/application/services/leader_election_service.py:478-519 | etcd honours the lease through every run with failure bursts of at most k if and only if interval + k < ttl |
| KeepaliveTiming.DefaultLeases | src/control-plane-api/application/services/leader_election_service.py:72-82 | with the default interval, bursts of k failures are ridden out exactly if 3k < 2 ttl for ttl above 2, k = 0 for 2, and never for 1 |
| PortPool.FindAvailablePorts | src/control-plane-api/application/services/port_allocation_service.py:425-433 | the scan refines "filter the range by not allocated and take the first count" |
| PortPool.FirstFreeIs | src/control-plane-api/application/services/port_allocation_service.py:407-433 | the pick is strictly increasing, free, in range, and of length min(count, free) |
| PortPool.FirstFreeHasNoGap | src/control-plane-api/application/services/port_allocation_service.py:407-433 | no free port below a picked one is left out |
| PortPool.FreeCount | src/control-plane-api/application/services/port_allocation_service.py:343-357 | free and allocated ports partition the range |
| PortPool.FirstFreeBelow | src/control-plane-api/application/services/port_allocation_service.py:425-433 | n ports are always found below lo + allocated + n |
| PortPool.ValidationAgrees | src/control-plane-api/application/services/port_allocation_service.py:392-402 | a yes is always right; yes and "the scan finds enough" agree for every request if and only if no allocated port lies outside the range or the range is full |
| PortLedger.PickIs | src/control-plane-api/application/services/port_allocation_service.py:212-215 | a picked mapping is injective, in range, free, and as large as the template |
| PortLedger.CommitKeeps | src/control-plane-api/integration/services/etcd_state_store.py:480-495 | committing a conflict-free mapping keeps the allocations injective, in range and disjoint |
| PortLedger.RemoveKeeps | src/control-plane-api/integration/services/etcd_state_store.py:509-517 | so does removing a session |
| PortLedger.ReachedStates | src/control-plane-api/application/services/port_allocation_service.py:343-402 | in every reached state the allocations are consistent, allocated + free = range, and validation is exact |
| PortLedger.WatermarkByDemand | src/control-plane-api/application/services/port_allocation_service.py:198-222 | no port at or above min + peak demand is ever handed out |
| PortLedger.WatermarkIff | src/control-plane-api/application/services/port_allocation_service.py:198-222 | all ports handed out stay below min + peak use all through a run if and only if every session that allocates while it still holds ports asks for no more than the peak so far leaves |
| PortLedger.Watermark | src/control-plane-api/application/services/port_allocation_service.py:198-222 | in particular without re-allocation no port at or above min + peak use is ever handed out |
| PortLedger.ReallocationPassesWatermark | src/control-plane-api/integration/services/etcd_state_store.py:490-496 | a session that allocates again while holding ports is given one beyond that watermark |
| PortAllocationService.EtcdStateStore.GetAllocatedPorts | src/control-plane-api/integration/services/etcd_state_store.py:519-535 | the union of all session mappings of the worker |
| PortAllocationService.EtcdStateStore.AllocateSessionPorts | src/control-plane-api/integration/services/etcd_state_store.py:458-497 | refuses exactly when a port is in use; otherwise adds just that mapping |
| PortAllocationService.EtcdStateStore.ReleaseSessionPorts | src/control-plane-api/integration/services/etcd_state_store.py:499-517 | removes and returns one mapping, or nothing |
| PortAllocationService.Service.AllocatePorts | src/control-plane-api/application/services/port_allocation_service.py:146-250 | answers as decided from the allocations before, and commits exactly when it gets that far; without overlap there is never a conflict, and other workers are untouched |
| PortAllocationService.AllocationMeans | src/control-plane-api/application/services/port_allocation_service.py:170-243 | a grant is stored as told: one different, free port of the range per name; a refusal leaves the allocations alone, except exactly when the call gets as far as the commit and its lowest or highest pick lies outside 2000-65535 |
| PortAllocationService.DecisionMeans | src/control-plane-api/application/services/port_allocation_service.py:170-210 | which input gets which answer: ids first, then an empty template, the range, and the number of free ports |
| PortAllocationService.Service.MapNames | src/control-plane-api/application/services/port_allocation_service.py:212-215 | each name gets the port at its position |
| PortAllocationService.Service.ReleasePorts | src/control-plane-api/application/services/port_allocation_service.py:252-284 | removes just that session and returns its mapping |
| PortAllocationService.Service.ValidatePortAvailability | src/control-plane-api/application/services/port_allocation_service.py:376-405 | a yes means the scan finds enough; exact on consistent allocations |
| PortAllocationService.Service.GetPortUsageStats | src/control-plane-api/application/services/port_allocation_service.py:329-374 | allocated + available = total, and available is the number of free ports on consistent allocations; all zeros when etcd fails |
| PortAllocationService.UtilizationMeans | src/control-plane-api/application/services/port_allocation_service.py:349-356 | on consistent allocations the utilisation is between 0 and 100 percent, and 100 exactly when no port is free |
| PortAllocationService.CommittedThoughRefused | src/control-plane-api/domain/value_objects/port_allocation.py:30-40 | in any range that is not wholly inside 2000-65535 there is a call on an empty store that commits its ports and is refused |
| PortAllocationService.NeverRejectedIff | src/control-plane-api/domain/value_objects/port_allocation.py:30-40 | no call at all is refused after its commit if and only if the range is inside 2000-65535 |
| PortAllocationService.ReleaseUndoesAllocate | src/control-plane-api/application/services/port_allocation_service.py:252-284 | a release undoes an allocation, and the next allocation grants the same ports |
| PortRaces.StoredIsConsistent | src/control-plane-api/integration/services/etcd_state_store.py:458-517 | over every interleaving, stale picks and stale writes included, the stored map is injective, in range and disjoint |
| PortRaces.WriteLosesNothingIff | src/control-plane-api/integration/services/etcd_state_store.py:490-497 | a write keeps the store equal to what was granted if and only if no other session has moved since its read; an unchanged revision suffices |
| PortRaces.LosesNothingIff | src/control-plane-api/integration/services/etcd_state_store.py:490-517 | all through a run the store holds what was granted and not released if and only if every write of the run is up to date |
| PortRaces.GuardedWritesLoseNothing | src/control-plane-api/integration/services/etcd_state_store.py:493-495 | with writes guarded by the revision every grant stays stored all through the run and callers never hold a port twice |
| PortRaces.RaceGrantsTwice | src/control-plane-api/integration/services/etcd_state_store.py:476-497 | as written, two overlapping allocations are both granted the same port |
| PortRaces.AllocationAlone | src/control-plane-api/integration/services/etcd_state_store.py:458-497 | an allocation that nothing overlaps does what the ledger of single calls says, and grants what it stores |
| PortRaces.ReleaseAlone | src/control-plane-api/integration/services/etcd_state_store.py:499-517 | so does a release |
| PortRaces.ConflictRefused | src/control-plane-api/integration/services/etcd_state_store.py:480-488 | a stale pick that meets a taken port is refused and changes nothing |
| OptimisticRetry.Retry | src/control-plane-api/application/decorators/retry.py:44-78 | the result is that of the first attempt that does not conflict; a conflict is raised only if all allowed attempts conflict; one backed-off sleep between attempts; no allowed attempt means there is nothing to raise |
| OptimisticRetry.DelayIsGeometric | src/control-plane-api/application/decorators/retry.py:74-75 | the k-th delay is initial * factor^k |
| OptimisticRetry.NoLostUpdate | src/control-plane-api/application/decorators/retry.py:36-54 | in every interleaving the record is the fold of the successful updates in commit order, each counted once |
| OptimisticRetry.ExhaustedByOthers | src/control-plane-api/application/decorators/retry.py:50-63 | a client gives up only after at least max_attempts commits by others during its call |
| OptimisticRetry.EnoughAttemptsSucceed | src/control-plane-api/application/decorators/retry.py:50-63 | with one call per client and as many attempts as clients, a client that has called is still at it or has succeeded |
| OptimisticRetry.CallSucceeds | src/control-plane-api/application/decorators/retry.py:48-49 | an undisturbed call applies its update to the record as it is, once |
| OptimisticRetry.ConflictRetries | src/control-plane-api/application/decorators/retry.py:50-75 | a conflict leaves the record alone; the client sleeps to try again unless it was its last attempt |
| OptimisticRetry.RetrySucceeds | src/control-plane-api/application/decorators/retry.py:47-75 | after its sleep the client reloads and, undisturbed, applies its update to the current record |
| OptimisticRetry.NeverCrashes | src/control-plane-api/application/decorators/retry.py:77-78 | with any attempt allowed there is always a result or a conflict to raise |
| DependencyWalk.Collect | src/control-plane-api/api/services/openapi_config.py:142-157 | the walk terminates, takes every reachable node exactly once and no other, in the order of the recursive depth-first walk, and collects exactly their requirements |
| DependencyWalk.Deduplicate | src/control-plane-api/api/services/openapi_config.py:159-189 | each (scheme, scopes) pair is kept exactly once and in the order of first occurrence, the scheme being its own name if given and not empty, else its model's; none is lost |
| DependencyWalk.RouteSecurity | src/control-plane-api/api/services/openapi_config.py:159-191 | a route is annotated with exactly the pairs, named that way, of what is reachable from it |
| SessionStores.InMemorySessionStore.CreateSession | src/control-plane-api/infrastructure/session_store.py:84-99 | field by field what is stored, with the two different fallbacks for the timeout; other sessions stay |
| SessionStores.InMemorySessionStore.GetSession | src/control-plane-api/infrastructure/session_store.py:101-114 | answers live sessions and drops expired ones |
| SessionStores.InMemorySessionStore.RefreshSession | src/control-plane-api/infrastructure/session_store.py:120-133 | whatever entry is there gets the new tokens, which win over the old ones, keeps the rest, and lives its timeout from now |
| SessionStores.InMemorySessionStore.DeleteSession | src/control-plane-api/infrastructure/session_store.py:116-118 | removes the session |
| SessionStores.InMemorySessionStore.CleanupExpiredSessions | src/control-plane-api/infrastructure/session_store.py:135-147 | drops exactly the expired sessions and returns their number |
| SessionStores.RedisSessionStore.CreateSession | src/control-plane-api/infrastructure/session_store.py:185-204 | sets the key with its TTL; Redis refuses a TTL that is not positive |
| SessionStores.RedisSessionStore.GetSession | src/control-plane-api/infrastructure/session_store.py:206-220 | answers while the TTL lasts |
| SessionStores.RedisSessionStore.DeleteSession | src/control-plane-api/infrastructure/session_store.py:222-225 | removes the key |
| SessionStores.RedisSessionStore.RefreshSession | src/control-plane-api/infrastructure/session_store.py:227-260 | the same for a live session only, with the deadline of the key; other sessions stay |
| SessionStores.StepAlikeIff | src/control-plane-api/infrastructure/session_store.py:84-260 | every operation keeps the two stores alike, a refresh if and only if the session has not lapsed |
| SessionStores.AlikeThroughoutIff | src/control-plane-api/infrastructure/session_store.py:84-260 | the stores are alike after every operation of a run if and only if the run refreshes live sessions only |
| SessionStores.StoresAnswerAlike | src/control-plane-api/infrastructure/session_store.py:84-260 | after every run that refreshes live sessions only, a get is answered alike if and only if it is not made at the exact expiry instant |
| SessionStores.LapsedRefreshSplits | src/control-plane-api/infrastructure/session_store.py:120-133 | refreshing a lapsed session brings it back in memory but not in Redis |
| SessionStores.CleanupInvisible | src/control-plane-api/infrastructure/session_store.py:135-147 | a cleanup changes no later answer |
| LabStart.Execute | src/scenario-engine/scenarios/lab_start_scenario.py:72-172 | over the answers of the environment: which observation gives which result, the first one that decides; completed only by a lab started and confirmed converged; polls counted; at most one start, from a startable state; the percentages, 100 exactly on completion |
| LabStart.DecisionIsFinal | src/scenario-engine/scenarios/lab_start_scenario.py:135-172 | nothing observed later changes a decided result |
| LabStart.DecidedFits | src/scenario-engine/scenarios/lab_start_scenario.py:94-172 | the decided result is the one that fits the answers, for every environment |
| LabStart.ReportsMean | src/scenario-engine/scenarios/lab_start_scenario.py:148-172 | a started lab is reported in tens up to 90, a queued one as 20, an unavailable one not at all |
| PortMapping.BasePass | src/control-plane-api/application/services/port_mapping_resolution_service.py:72-84 | per label the last interface wins |
| PortMapping.OverlayPass | src/control-plane-api/application/services/port_mapping_resolution_service.py:86-115 | allocated ports override known nodes and add unknown ones |
| PortMapping.HostPass | src/control-plane-api/application/services/port_mapping_resolution_service.py:117-120 | only empty hosts fall back to the worker address |
| PortMapping.Resolve | src/control-plane-api/application/services/port_mapping_resolution_service.py:36-123 | the three passes give every label what the pointwise specification says |
| PortMapping.ResolutionUnique | src/control-plane-api/application/services/port_mapping_resolution_service.py:36-123 | that specification admits one mapping only |
| PortMapping.InterfaceResolved | src/control-plane-api/application/services/port_mapping_resolution_service.py:72-120 | field by field, what the last interface with a label and the allocated ports make of its entry |
| PortMapping.AllocatedResolved | src/control-plane-api/application/services/port_mapping_resolution_service.py:102-120 | field by field, the entry of a node that only the allocated ports know; none if their form is unknown |
| PortMapping.OrderIrrelevant | src/control-plane-api/application/services/port_mapping_resolution_service.py:89-90 | resolutions over two iteration orders of the same allocated ports are equal |
| PortMapping.EveryEntryHasHost | src/control-plane-api/application/services/port_mapping_resolution_service.py:117-120 | with a worker address every entry has a host |
| PortMapping.ResolutionIsFixpoint | src/control-plane-api/application/services/port_mapping_resolution_service.py:86-120 | resolving again with the own output as allocated ports changes nothing |
| DuplicateRepair.NewestFirstIs | scripts/fix_duplicate_lab_records.py:77-85 | the sort keeps all records and puts them newest first |
| DuplicateRepair.AnalyzeDuplicates | scripts/fix_duplicate_lab_records.py:44-51 | exactly the groups with more than one record, complete |
| DuplicateRepair.Collection.DeleteOne | scripts/fix_duplicate_lab_records.py:101-104 | with distinct ids deletes just that record and counts it |
| DuplicateRepair.RemoveAllButFirst | scripts/fix_duplicate_lab_records.py:87-106 | removes all records of a sorted group but the first |
| DuplicateRepair.RemoveDuplicates | scripts/fix_duplicate_lab_records.py:68-111 | a fix deletes exactly the losers and as many as a dry run predicts: records minus distinct keys; a dry run changes nothing |
| DuplicateRepair.Survivors | scripts/fix_duplicate_lab_records.py:87-89 | what survives is the newest record of each group; unique records are untouched |
| DuplicateRepair.SurvivorsAre | scripts/fix_duplicate_lab_records.py:74-89 | a record survives if and only if it is the first of the most recently synced, then highest-versioned ones of its worker and lab |
| DuplicateRepair.OnePerKey | scripts/fix_duplicate_lab_records.py:87-106 | exactly one record is left per (worker, lab) |
| DuplicateRepair.FixDuplicates | scripts/fix_duplicate_lab_records.py:196-202 | the whole script: one newest record per key that was there, nothing else changed |
| EventDedup.EventDeduplicationService.IsProcessed | src/control-plane-api/application/services/event_deduplication_service.py:48-64 | is the delivery step of the protocol: a yes skips the delivery and rests on earlier processing of the event; a no, also by error, has it taken on |
| EventDedup.EventDeduplicationService.MarkProcessed | src/control-plane-api/application/services/event_deduplication_service.py:66-88 | is the marking step with the TTL asked for or the default one, and keeps the invariant that every mark rests on earlier processing; afterwards the event is marked exactly if etcd executed the calls, with or without the answer arriving, the lease has the attribute read and the TTL is positive, or it was before |
| EventDedup.EventDeduplicationService.ClearProcessed | src/control-plane-api/application/services/event_deduplication_service.py:90-101 | is the clearing step, and keeps that invariant; unless etcd does not execute it the next delivery is taken on again |
| EventDedup.EventDeduplicationService.HandleEvent | src/control-plane-api/application/events/integration/assessment_events_handler.py:91-122 | check, process, mark by one handler: skips exactly a marked event whose check does not fail |
| EventDedup.HandlingMeans | src/control-plane-api/application/events/integration/assessment_events_handler.py:91-122 | after it the event has been processed at least once; this time exactly if it was not skipped; and then it is marked for its TTL if the mark took effect |
| EventDedup.SkipsAreSafe | src/control-plane-api/application/services/event_deduplication_service.py:20-28 | in every run an event is skipped only if it was marked within the TTL of that mark, not cleared since, and processed before that |
| EventDedup.DeliveriesAccounted | src/control-plane-api/application/services/event_deduplication_service.py:48-88 | every delivery is processed, skipped or still in hand; with leases without `id` none is ever skipped |
| EventDedup.AtLeastOnce | src/control-plane-api/application/services/event_deduplication_service.py:48-88 | a delivered event that is in no handler's hands was processed at least once |
| EventDedup.ExactlyOnceIff | src/control-plane-api/application/services/event_deduplication_service.py:66-88 | in every run in which deliveries of the event do not overlap, no check of it fails, its marks take effect and nobody clears it - whatever other events, handlers and the clock do - it is processed exactly once if and only if every later delivery comes within the TTL of the mark or, with leases without `id`, there is none |
| EventDedup.ProcessedTwice | src/control-plane-api/application/services/event_deduplication_service.py:80-88 | with leases without `id`, two deliveries handled one after the other with all calls working are both processed |
| EventDedup.MarkRunsOut | src/control-plane-api/application/services/event_deduplication_service.py:48-64 | once its mark has run out the next delivery of an event is taken on again |
| PathNormalization.JoinSplit | src/control-plane-api/api/middleware/metrics_middleware.py:124-144 | joining the parts of a split gives the path back |
| PathNormalization.SplitJoin | src/control-plane-api/api/middleware/metrics_middleware.py:124-144 | splitting joined segments gives the segments back |
| PathNormalization.NormalizePath | src/control-plane-api/api/middleware/metrics_middleware.py:113-144 | the loop computes the segment-wise normalisation |
| PathNormalization.IsUuidIff | src/control-plane-api/api/middleware/metrics_middleware.py:146-165 | the check tells exactly five groups of 8, 4, 4, 4 and 12 characters between hyphens, hexadecimal together |
| PathNormalization.PartMeans | src/control-plane-api/api/middleware/metrics_middleware.py:127-142 | a segment is replaced exactly if it is such a UUID, a number, or starts with inst- or worker- |
| PathNormalization.SegmentsOf | src/control-plane-api/api/middleware/metrics_middleware.py:124-144 | the segments of the result are the normalised segments, as many as before |
| PathNormalization.Idempotent | src/control-plane-api/api/middleware/metrics_middleware.py:113-165 | normalising twice is normalising once |

## Left out

- `get_status`, `get_current_leader`, `get_prefix` counts and other queries: they read one value and change nothing.
- User callbacks of the election service: only that a round of them is started; a round already running when its task is cancelled, or replaced by the keepalive task of a new leadership, is not followed further.
- `start_async` overlapping `stop_async`: excluded, as listed under Assumptions.
- `EtcdClient` retries, HTTP encoding and watches: requests may be executed late and repeatedly, which covers the retries; the encoding is not modelled.
- KeepaliveTiming.Keepalive: takes refresh calls as instantaneous; the time a refresh call itself takes is not modelled.
- PortRaces.StoredIsConsistent: does not model the value object's rejection after a commit, which `PortAllocationService.AllocationMeans` covers.
- PortAllocationService.Service.GetPortUsageStats: leaves out the rounding of the utilisation percentage to two decimals.
- PortAllocationService.Service.AllocatePorts: leaves out failing etcd calls, which it answers with an error; the ports may then be committed or not.
- PortAllocationService.EtcdStateStore.AllocateSessionPorts: is one call without overlap; overlapping calls are in `PortRaces`.
- SessionStores.InMemorySessionStore.GetSession: returns the session as a value, so that a caller's reference changing with a later refresh is not captured.
- Zero or negative session timeouts are modelled in both stores but not compared: Redis refuses them.
- EventDedup.EventDeduplicationService.HandleEvent: takes the event's own work as one step that ends; a handler that never gets to its end keeps the event in hand.
- Session ids are arguments instead of random tokens, clocks are arguments, and JSON round trips of sessions are taken as exact.
- `ensure_unique_index` and the logging of the repair script, which also fails on records without worker or lab id.
- DuplicateRepair.NewestFirstIs: compares timestamps as instants, not as the ISO text they are stored in.
- PathNormalization.Idempotent: leaves open what Python takes for a digit or a hexadecimal number, except that '{' is not a digit.
- The HTTP methods of a route, of which the annotation skips head and options.
- FastAPI controllers, DTO mapping, settings, JWT verification, the SSE stream, the scheduler proxy and the user interface.
- The lifecycle phase lists and the aggregates that enforce status transitions.
