# Host shell runtime: verified model

The Host shell runs one child process (an *app runtime*) per live app and keeps a *LaunchManifest*:
which instances should run, and for each app a route with an `active`, a `candidate` and a `previous`
instance. The manifest lives in memory and in a control file on disk whose writes compare and swap on
a content revision. Starts, cutovers, retirements and stops interleave at every `await`; a mutation
lock covers each manifest change, and the lock of the process pool is dropped while a child is being
spawned or killed. This project models that protocol and the smaller machines around it, and proves
what they keep.

## The modules

| file | what it holds |
|---|---|
| `LaunchManifest.dfy` | the manifest, its five edits, the revision-checked write, minted instance ids |
| `LaunchProtocol.dfy` | starts and stops of any number of apps as a transition system; one step is one locked section, and a mutation is three steps (compute under the lock, write the disk, install in memory) |
| `LaunchSafety.dfy` | the invariant and its preservation, step by step |
| `LaunchResults.dfy` | served routes, agreement of memory and disk, no lost update, no trace of a failed start, the in-flight guard |
| `LaunchOverlap.dfy` | which of several overlapping starts can go live |
| `LaunchStranding.dfy` | whether a process can be left running without a route, and when |
| `LaunchScenarios.dfy` | a whole undisturbed start, and a boot at which memory and disk disagree |
| `LaunchFailures.dfy` | starts that fail or are dropped on their own, point by point, and what a pooled process proves |
| `LaunchEndpoints.dfy` | the endpoint table of the proxy against routes and pool |
| `HostShell.dfy` | the locked sections as methods on the shell's fields, and their agreement with the protocol |
| `Bootstrap.dfy` | what the bootstrap policies do to the persisted manifest |
| `ChildProcesses.dfy` | pool, children, spawn / stop / restart tasks and exit watchdogs under any interleaving |
| `ChildRecovery.dfy` | spawns, stops and restarts that nothing disturbs; how the watchdog gets a dead instance back and when it gives up |
| `ExitAccidents.dfy` | when an accident of the exit watchdog names a child that exited while pooled |
| `Supervisor.dfy` | restart with back-off, reconciliation and shutdown as methods on the pool |
| `StartInflight.dfy` | the table of starts in flight |
| `GenerationLifecycle.dfy` | the active generation, and the all-or-nothing pointer switch with rollback |
| `CircuitBreaker.dfy` | the per-app circuit breaker as a function of its history |
| `PagePack.dfy` | the build-time slot check and the run-time slot filler |
| `PagePackTemplates.dfy` | the built-in templates and the build-time check |
| `Scopes.dfy` | preview scopes: normalization, segments, which scopes a prefix covers |
| `RuntimeModes.dfy` | longest-prefix mode resolution and the permissions derived from it |
| `PercentCoding.dfy` | the percent decoder against the percent encoder |
| `OpsJobs.dfy` | the single-slot ops job with its bounded log |
| `Texts.dfy` | trimming, and the key order of ordered maps |
| `Utf8.dfy` | UTF-8 encoding and lossy decoding |

## What was found

- **Overlapping starts undo each other.** Starts of different apps are admitted in parallel, but a
  cutover is accepted only over the very manifest its own registration installed
  (`LaunchOverlap.CutoverAdmittedIffUnchanged`), so of several registered starts at most one can be
  next to go live (`LaunchOverlap.AtMostOneStartCanCutOver`); a later registration of any app makes an
  earlier start fail (`LaunchOverlap.OverlappingStartIsUndone`), unless the change is taken back before
  its cutover.
- **A stop can strand a process.** An instance that goes live after a stop listed its targets and
  before the stop commits loses its route but is not killed (`LaunchStranding.StopMissesAStart`). An
  operation that is dropped because its client hung up strands the processes it was to deal with. In
  runs of starts and stops these are the only two ways (`LaunchStranding.StrandsExactly`), no such run
  routes to a stranded process again, and it stays pooled until a stop that lists it commits
  (`LaunchStranding.StrandedUntilStopListsIt`). The runtime actor's lanes, which run one operation per
  app at a time in tasks of their own, exclude both (`LaunchStranding.SerialLanesStrandNothing`);
  callers that start or stop an app without going through a lane are not protected. A rollback of the
  route, which is not a start or a stop, can reach a missed process: it is the route's `previous`
  (`LaunchStranding.RollbackReachesMissed`).
- **A dropped stop takes endpoints away without killing.** While no operation is dropped, endpoints
  and pool agree once all have returned (`LaunchEndpoints.QuiescentEndpointsArePooled`); a stop dropped
  between its commit and its kills leaves processes without endpoints
  (`LaunchEndpoints.DroppedStopLosesEndpoints`). An active route keeps its endpoint even then
  (`LaunchEndpoints.ActiveRoutesHaveEndpoints`).
- **Without a control file nothing commits.** A missing control file reads as the empty revision,
  which the manifest in memory never has; every locked mutation is then refused
  (`Bootstrap.BootAgreement`, `Bootstrap.NoControlFileNoStart`). The same follows when the bootstrap
  revives an uncovered app in memory without writing the disk (`Bootstrap.RevivedHostCommitsNothing`).
  Writers outside the lock end this state.
- **The exit watchdog reports more than exits from the pool.** A child that exits between its health
  check and its insertion is reported (`ChildProcesses.ExitBeforeInsertIsReported`). That is the only
  gap: an accident reported on an exit names a child that exited while pooled exactly if the child
  was still alive at its insertion (`ExitAccidents.PooledExitIffAliveAtInsert`), which one more
  `try_wait` before the insertion could ask. A failing `try_wait` is reported too, and may name a live
  child (`ExitAccidents.WaitErrorMayNameALiveChild`). No child taken out by a stop or restart is ever
  reported.
- **A failed start can leave its candidate behind.** It leaves no trace exactly if its discard is
  installed; if the disk refuses the discard, or the start is dropped at an await, the id stays the
  app's candidate and desired Running (`LaunchResults.FailedStartLeavesNoTraceIffDiscardWritten`).
- **Values may open a marker.** A page fill accepts arbitrary values; it fails exactly if text and
  values together show an opening `{{mei:` (`PagePack.AcceptedTemplateFills`). The build-time check can
  miss an opening that deleting the slots forms, depending on their order
  (`PagePackTemplates.CheckMayMissFormedMarker`); the text of the built-in templates has no brace.
- **A pointer that exists but does not resolve is rolled back as missing**
  (`GenerationLifecycle.Workspace.Activate`).
- **With a clock that goes back** the breaker can be closed although its history says open
  (`CircuitBreaker.BackwardsClockDiffers`); `CircuitBreaker.OpenIffHistory` is exact for every clock.
- **The Host's path encoding is not what its label decoder reads.** The decoder inverts the standard
  percent encoding of UTF-8 on every string (`PercentCoding.StandardRoundTrip`). The Host's own encoder
  escapes code points instead of bytes, so decoding returns the string exactly if it is ASCII
  (`PercentCoding.RoundTripIffAscii`).

## Model

| member | source | states |
|---|---|---|
| LaunchManifests.DiscardUndoesRegister | host-shell/src/app_launch_api.rs:494-569 | registering a new id and discarding it gives back the instances and every route, with the app's candidate cleared |
| LaunchManifests.CutoverMoves | host-shell/src/route_lifecycle.rs:85-123 | a cutover succeeds exactly for a listed instance; the target is active and Running, the old active is `previous` and on Standby, specs, other apps and other instances are unchanged, and a cutover to the present active only clears the candidate |
| LaunchManifests.DiscardTakesOut | host-shell/src/app_launch_api.rs:534-569 | a discard takes out the one instance and clears its app's candidate only if it is that instance; everything else stays |
| LaunchManifests.StopsKeepTheRest | host-shell/src/app_launch_api.rs:583-605 | a retirement sets one instance to Stopped, a stop the listed ones, and the stop empties the app's route with the old active as `previous`; specs, other instances and other routes stay |
| LaunchManifests.MintedIdsAreDistinct | host-shell/src/app_launch_api.rs:489-492 | two rendered ids are different strings whenever their counters differ, whatever base and clock they used |
| LaunchSafety.StepKeepsInv | host-shell/src/app_launch_api.rs:306-614 | every step of every operation keeps the whole protocol invariant: agreement of copies, what the lock holder carries, served routes, and each operation's private facts |
| LaunchSafety.RunKeepsInv | host-shell/src/app_launch_api.rs:306-1039 | every interleaving of starts and stops of any number of apps keeps it |
| LaunchSafety.CutoverFindsCandidate | host-shell/src/route_lifecycle.rs:239-302 | a cutover that holds the lock still finds its own id as the candidate, in the pool, and active nowhere |
| LaunchResults.ActiveRoutesAreServed | host-shell/src/app_launch_api.rs:408-487 | in every reachable state an active instance is in the pool and desired Running |
| LaunchResults.OnlyStopEmptiesRoute | host-shell/src/app_launch_api.rs:957-1001 | a step takes an active route to none exactly when it is the commit of a stop of that app |
| LaunchResults.RunningAppStaysRouted | host-shell/src/app_launch_api.rs:408-487 | over a run without such a commit, a routed app stays routed: replacing it never leaves it without a route |
| LaunchResults.MemoryEqualsDisk | host-shell/src/app_launch_api.rs:501-531 | whenever the mutation lock is free the manifest in memory is the one on disk |
| LaunchResults.WritesAreNeverStale | crates/mei-host-core/src/app_runtime/host_control.rs:193-212 | in no reachable state does a revision-checked write fail for staleness; it fails exactly when the disk does |
| LaunchResults.NoUpdateIsLost | host-shell/src/app_launch_api.rs:543-605 | what an operation installs is its own edit of the manifest it replaces, and the disk then has it too |
| LaunchResults.EditTouchesOwnAppOnly | host-shell/src/app_launch_api.rs:494-614 | a mutation by an operation of one app leaves every other app's route and instances as they were |
| LaunchResults.StepTouchesOwnAppOnly | host-shell/src/app_launch_api.rs:494-614 | a step that changes the manifest is an install, and changes only its operation's app |
| LaunchResults.FailedStartLeavesNoTrace | host-shell/src/app_launch_api.rs:408-447 | a start whose discard is written leaves its app's active, previous and instances as before its registration, candidate empty, its process not pooled and the app not in flight, whatever else ran in between except the commit of a stop of that app; `LaunchFailures` says which failures lead there |
| LaunchResults.FailedStartLeavesNoTraceIffDiscardWritten | host-shell/src/app_launch_api.rs:404-569 | over every run from the registration to the step with which the start ends without going live, and without a stop of the app: no trace is left if and only if that step installs a discard; else the disk refused it or the start was dropped, and the dead candidate stays |
| LaunchResults.RefusedDiscardLeavesDeadCandidate | host-shell/src/app_launch_api.rs:543-562 | if the disk refuses the discard, the start is over and its process not pooled, but the dead id stays the candidate and desired Running, in memory and on disk |
| LaunchFailures.FailedPreparationEnds | host-shell/src/app_launch_api.rs:313-353 | a start whose preparation fails changes nothing but the number of operations begun, and gives its guard back |
| LaunchFailures.UnwrittenSpecEnds | host-shell/src/app_launch_api.rs:494-500 | the same for a start whose spec cannot be written, which has used up an id |
| LaunchFailures.UnhealthyStartIsUndone | host-shell/src/app_launch_api.rs:408-418 | from every free state: a start whose child never becomes healthy leaves route, instances, pool, operations and guard as they were, without a candidate; the running instance is not touched |
| LaunchFailures.RefusedCutoverIsUndone | host-shell/src/app_launch_api.rs:430-447 | the same for a start whose cutover the disk refuses; its healthy child is stopped |
| LaunchFailures.PooledOnlyIfHealthy | host-shell/src/app_runtime_supervisor.rs:162-189 | over every run, an instance that is pooled, or about to be, comes from a start that passed its health check at a step of the run |
| LaunchFailures.DroppedStartStrands | host-shell/src/app_launch_api.rs:412-440 | from every free state: a start dropped while it waits to cut over strands its healthy child |
| LaunchFailures.DropsAreAtAwaits | host-shell/src/app_launch_api.rs:534-605 | where an operation cannot be dropped, and that a drop anywhere else ends it and changes nothing more |
| LaunchFailures.StopOfNothingChangesNothing | host-shell/src/app_launch_api.rs:938-958 | a stop of an app without processes and without an active instance changes nothing |
| LaunchEndpoints.ActiveRoutesHaveEndpoints | host-shell/src/app_launch_api.rs:420-447 | in every reachable state, dropped operations included, the active instance of every app has its endpoint registered |
| LaunchEndpoints.QuiescentEndpointsArePooled | host-shell/src/app_launch_api.rs:408-614 | in every run in which no operation is dropped, once all have returned the endpoints are exactly those of the pooled processes |
| LaunchEndpoints.DroppedStopLosesEndpoints | host-shell/src/app_launch_api.rs:991-1019 | from every free state with something to stop: a stop dropped after its commit leaves a pooled process without an endpoint |
| LaunchResults.GuardIsExact | host-shell/src/app_start_inflight.rs:62-92 | in every reachable state the apps in flight are exactly those of the running starts |
| LaunchOverlap.CutoverAdmittedIffUnchanged | host-shell/src/route_lifecycle.rs:239-302 | in every reachable state a start at its cutover is admitted exactly when the manifest equals the one its registration installed, and else goes on to undo itself |
| LaunchOverlap.AtMostOneStartCanCutOver | host-shell/src/app_launch_api.rs:404-447 | of two registered starts the present manifest matches at most one, so at most one of two cutovers is admitted |
| LaunchOverlap.OverlappingStartIsUndone | host-shell/src/app_launch_api.rs:404-447 | in every state with the lock free, a start that has come to its cutover and would be admitted is undone once a start of another app registers |
| LaunchStranding.StrandsExactly | host-shell/src/app_launch_api.rs:924-1001 | a step leaves a pooled process unrouted and unminded exactly when it commits a stop that did not list the app's active instance, or drops the only operation that minded an unrouted process |
| LaunchStranding.QuiescentPoolIsRouted | host-shell/src/app_launch_api.rs:306-1039 | if no process was missed or abandoned and all operations have ended, the pool is exactly the set of active instances |
| LaunchStranding.StopMissesAStart | host-shell/src/app_launch_api.rs:928-1001 | from every state in which a stop is about to commit, a whole start followed by that commit leaves the new process pooled, desired Running, unrouted and not among the stop's targets |
| LaunchStranding.SerialLanesStrandNothing | host-shell/src/runtime_actor.rs:188-236 | with one operation per app at a time, none of them dropped, nothing is ever stranded, and the pool of a quiet host is exactly the set of active instances |
| LaunchStranding.StrandedIsNeverRoutedAgain | host-shell/src/app_launch_api.rs:924-1026 | no run of starts and stops routes to a stranded process again |
| LaunchStranding.StrandedUntilStopListsIt | host-shell/src/app_launch_api.rs:936-1026 | over every step of a start or stop a stranded process stays pooled and unrouted, and its stranding ends exactly at the commit of a stop that listed it |
| LaunchStranding.RollbackReachesMissed | host-shell/src/route_lifecycle.rs:125-145 | right after a stop missed a process, that process is stranded and `previous`, and the edit of a route rollback makes it active |
| LaunchScenarios.RegistersIffRevisionsAgree | host-shell/src/app_launch_api.rs:494-532 | in an idle host the first start registers exactly when the disk carries the revision memory expects; else nothing changes |
| LaunchScenarios.UndisturbedStartGoesLive | host-shell/src/app_launch_api.rs:306-614 | a start nothing disturbs ends with the new instance active, pooled and Running, its predecessor `previous`, Stopped and out of the pool, and nothing else changed |
| LaunchScenarios.UndisturbedStopTakesDown | host-shell/src/app_launch_api.rs:924-1039 | a stop nothing disturbs, with its kills in any order, leaves the route empty with the old active as `previous`, every process of the app gone with its endpoint and desired Stopped, and other apps as they were |
| LaunchScenarios.DisagreementIsForever | crates/mei-host-core/src/app_runtime/host_control.rs:193-212 | if memory and disk disagree while nothing runs, no start or stop ever commits or adds a process |
| HostShells.HostShell.WriteIfMatches | crates/mei-host-core/src/app_runtime/host_control.rs:193-212 | a disk copy of another revision is a conflict, a missing one counts as the empty revision; else the copy is replaced exactly if the disk accepts the write |
| HostShells.HostShell.RegisterStartCandidate | host-shell/src/app_launch_api.rs:494-532 | both copies become the registration edit or both stay; the returned revision is the installed one |
| HostShells.HostShell.DiscardStartCandidate | host-shell/src/app_launch_api.rs:534-569 | the endpoint is dropped, and the discard edit is committed or nothing is |
| HostShells.HostShell.RetirePrevious | host-shell/src/app_launch_api.rs:583-605 | the endpoint is dropped, and the retire edit is committed or nothing is |
| HostShells.HostShell.StopRoute | host-shell/src/app_launch_api.rs:957-1001 | the loop over the listed instances commits the stop edit, and drops their endpoints exactly on success |
| HostShells.HostShell.ExecuteCutover | host-shell/src/route_lifecycle.rs:239-302 | the four outcomes in their order (revision, readiness, missing instance, write), nothing changed on failure, and the result names the installed previous and revision |
| HostShells.MutationIsCommit | host-shell/src/app_launch_api.rs:494-614 | on every path, refused or not, the three steps of a mutation, uninterrupted, are the one commit that the methods perform or none, and the operation goes on as installed exactly if it was written |
| HostShells.HostShell.RegisterAgrees | host-shell/src/app_launch_api.rs:494-532 | the section run on the shell leaves copies and endpoints as the protocol does, and returns an error exactly when the start ends |
| HostShells.HostShell.DiscardAgrees | host-shell/src/app_launch_api.rs:534-569 | the same for the endpoint drop and discard; the start ends either way |
| HostShells.HostShell.RetireAgrees | host-shell/src/app_launch_api.rs:583-605 | the same for the endpoint drop and retirement |
| HostShells.HostShell.StopAgrees | host-shell/src/app_launch_api.rs:957-1001 | the same for a stop, which goes on to kill exactly on success |
| HostShells.HostShell.CutoverAgrees | host-shell/src/route_lifecycle.rs:239-302 | the same for a cutover on all its outcomes: on success it goes on to drain the returned previous or ends, on any error it goes on to undo itself |
| Bootstrap.BootstrapCliOwned | host-shell/src/app_runtime_supervisor.rs:818-861 | the two passes compute the cleared manifest, and the disk is rewritten exactly if it changed and the write works |
| Bootstrap.CliOwnedStartsClean | host-shell/src/app_runtime_supervisor.rs:823-861 | from any manifest: what was Running is Stopped with the same spec, no route is active, old actives become `previous`, the rest is untouched, no app is covered, and repeating it changes nothing |
| Bootstrap.BootAgreement | host-shell/src/app_runtime_supervisor.rs:818-861 | memory and disk agree after the bootstrap exactly when a control file was there and, if it had something to clear, was rewritten |
| Bootstrap.BootIsInitial | host-shell/src/app_runtime_supervisor.rs:823-861 | a boot that agrees is an initial state of the launch protocol, whatever was persisted |
| Bootstrap.NoControlFileNoStart | crates/mei-host-core/src/app_runtime/host_control.rs:198-206 | booted without a control file, no run of starts and stops changes memory, disk or pool |
| Bootstrap.ReviveCoversAutoApp | host-shell/src/app_runtime_supervisor.rs:862-899 | without a name, or with a blank one, nothing changes; else the app of the trimmed name keeps its Running active instance, or gets the instance `auto-` and its name, Running and without a spec, as its whole route; other routes and instances stay, and the call is idempotent |
| Bootstrap.ReviveAgreement | host-shell/src/app_runtime_supervisor.rs:862-899 | after that bootstrap memory and disk agree exactly when there was no automatic app or it was covered |
| Bootstrap.RevivedHostCommitsNothing | host-shell/src/app_runtime_supervisor.rs:862-905 | when an uncovered app was revived, no run of starts and stops changes memory, disk or pool, whatever was spawned at boot |
| Bootstrap.NeedingPlugKeepsOrder | host-shell/src/legacy_compat.rs:99-108 | wherever the list of apps is cut, the result is that of its parts, and one app alone is kept exactly if not covered: order and repetitions are kept |
| ChildProcesses.LiveChildHasOneOwner | host-shell/src/app_runtime_supervisor.rs:162-238 | in every reachable state a live child is in the pool under its own id or held by one task, never both and never twice |
| ChildProcesses.NoEntryIsOverwritten | host-shell/src/app_runtime_supervisor.rs:179-187 | an entry that stays in the pool over a step is the same process |
| ChildProcesses.QuiescentPoolIsAllThatLives | host-shell/src/app_runtime_supervisor.rs:162-238 | once every spawn, stop and restart has returned, the live children are exactly the pooled ones that have not exited by themselves |
| ChildProcesses.AccidentWasPooled | host-shell/src/instance_api.rs:353-443 | every accident of a run was recorded when its instance was pooled with the child it names, and that child had exited or could not be waited for |
| ChildProcesses.WatchdogOutlivesGap | host-shell/src/instance_api.rs:353-443 | over every run, a watchdog whose turns find its instance missing survives 60 of them and gives up at the next |
| ChildProcesses.LivingTurn | host-shell/src/instance_api.rs:361-382 | a turn that finds the instance alive starts that count anew |
| ChildRecovery.DeadInstanceIsReplaced | host-shell/src/instance_api.rs:376-432 | from every reachable state in which a watchdog is about to report: after fewer than three failed children and a healthy one, the id is pooled with that child under the same spec and token and watched again; the dead child and the failed ones are gone, nothing else has changed |
| ChildRecovery.DeadInstanceIsGivenUp | host-shell/src/instance_api.rs:414-441 | if all fail, the watchdog has ended after exactly three children, all killed, and the id has left the pool |
| ChildRecovery.GuardStep | host-shell/src/instance_api.rs:353-443 | whatever step is taken, a watchdog goes on watching or restarting its instance, except in three cases, in which it ends: missing for more than 60 turns, taken away between report and restart, third attempt failed |
| ChildRecovery.AccidentIsFollowedUp | host-shell/src/instance_api.rs:353-443 | over every run and from every accident on: the watchdog that recorded it still watches or restarts the instance, unless it has given up in one of these cases |
| ChildRecovery.AnyTaskMayBegin | host-shell/src/app_runtime_supervisor.rs:162-238 | a spawn, stop, restart or watchdog may begin in any state, as a task of its own |
| ChildRecovery.HealthySpawnPools | host-shell/src/app_runtime_supervisor.rs:162-189 | an undisturbed spawn of a free id with a healthy child pools exactly that child |
| ChildRecovery.UnhealthySpawnKills | host-shell/src/app_runtime_supervisor.rs:162-189 | with a child that is not healthy it kills the child and leaves the pool as it is |
| ChildRecovery.LateDuplicateIsKilled | host-shell/src/app_runtime_supervisor.rs:178-185 | a child whose id was taken in the meantime is killed and the pool stays |
| ChildRecovery.RefusedAtOnce | host-shell/src/app_runtime_supervisor.rs:171-215 | a spawn of a managed id starts no child and counts as failed; a stop or a restart of an unmanaged id ends at once |
| ChildRecovery.StopTakesDown | host-shell/src/app_runtime_supervisor.rs:192-201 | a stop takes the instance out of the pool, kills its child and ends |
| ChildRecovery.RestartReplaces | host-shell/src/app_runtime_supervisor.rs:204-238 | a restart that succeeds at one of its max(1, n) attempts pools a new child under the old spec and token; the old child and those that failed are gone |
| ChildRecovery.RestartGivesUp | host-shell/src/app_runtime_supervisor.rs:204-238 | a restart of which all max(1, n) attempts fail has killed as many children and leaves the id out of the pool |
| ChildProcesses.AccidentsAreOwnExits | host-shell/src/instance_api.rs:353-443 | in no run does an accident reported on an exit name a child that was killed |
| ChildProcesses.StoppedChildRaisesNoAccident | host-shell/src/app_runtime_supervisor.rs:192-238 | in every run, once a stop or restart has taken an instance out of the pool, no accident is ever recorded for the child it had |
| ExitAccidents.PooledExitIffAliveAtInsert | host-shell/src/app_runtime_supervisor.rs:176-187 | in every run, for every accident reported on an exit, wherever its child was inserted and wherever it exited: it exited while pooled if and only if it was still alive when it was inserted |
| ExitAccidents.AccidentExitedPooledIff | host-shell/src/instance_api.rs:353-443 | in every run, the child of each such accident was inserted and exited by itself, so that condition decides it |
| ExitAccidents.WaitErrorMayNameALiveChild | host-shell/src/instance_api.rs:353-443 | a run in which a failing wait makes an accident that names a live, pooled child |
| ChildProcesses.ExitBeforeInsertIsReported | host-shell/src/app_runtime_supervisor.rs:176-187 | a run in which a child that exits before it is pooled is reported |
| Supervisor.TotalBackoff | host-shell/src/app_runtime_supervisor.rs:216-235 | m >= 4 pauses of a restart add up to 7500 + 8000 * (m - 4) ms |
| Supervisor.DelaysAre | host-shell/src/app_runtime_supervisor.rs:218-232 | the pauses are 500, 1000, 2000 and 4000 ms, and 8000 ms from then on |
| Supervisor.AppRuntimeSupervisor.SpawnInto | host-shell/src/app_runtime_supervisor.rs:162-189 | without interference: refused exactly for a managed id, pooled exactly if the child is healthy |
| Supervisor.AppRuntimeSupervisor.RestartFrom | host-shell/src/app_runtime_supervisor.rs:204-238 | the first healthy attempt among at most max(1, n) pools a new process with the same spec and token; else the id is gone; pause k is min(500 * 2^k, 8000) ms |
| Supervisor.AppRuntimeSupervisor.ShutdownAll | host-shell/src/app_runtime_supervisor.rs:282-302 | the pool is empty afterwards |
| Supervisor.AppRuntimeSupervisor.Reconcile | host-shell/src/app_runtime_supervisor.rs:308-388 | the pool becomes exactly the ids desired Running that were pooled or can boot; the former are the same processes, the latter are new and started for the app of their id; the report has one row per desired id, in key order, saying how it stands |
| Supervisor.AppRuntimeSupervisor.AppFor | host-shell/src/app_runtime_supervisor.rs:316-325 | the first app in key order whose route is active on the id, or the id itself if there is none |
| Texts.LeqIsLexicographic | host-shell/src/app_runtime_supervisor.rs:316-325 | the key order is lexicographic: behind a common part the shorter key or the first character that differs decides |
| Supervisor.AppRuntimeSupervisor.ReconcileTwice | host-shell/src/app_runtime_supervisor.rs:308-388 | after a reconcile without failures a second one changes nothing and returns the same report |
| StartInflight.AppStartInflight.BeginAgrees | host-shell/src/app_start_inflight.rs:72-82 | a begin on the table does what the protocol's begin does |
| StartInflight.AppStartInflight.EndAgrees | host-shell/src/app_start_inflight.rs:89-92 | dropping the guard does what the protocol's end of a start does |
| GenerationLifecycle.AtMostOneActive | host-shell/src/generation_lifecycle.rs:258-258 | two active rows name the same generation |
| GenerationLifecycle.RowActiveIffCommon | host-shell/src/generation_lifecycle.rs:1016-1022 | a row is active exactly when its generation is the common generation of the pointers |
| GenerationLifecycle.ViewActiveIsCommon | host-shell/src/generation_lifecycle.rs:105-122 | the view's active generation is the common generation exactly when there is none or it is among the rows, in whatever order they come |
| GenerationLifecycle.Workspace.SwitchPointers | host-shell/src/generation_lifecycle.rs:905-919 | succeeds exactly if every attach does, and then every app points at the target; on failure the apps before the failing one do, those after it are untouched |
| GenerationLifecycle.Workspace.RestorePointers | host-shell/src/generation_lifecycle.rs:921-939 | succeeds exactly if each captured generation attaches, each pointer to be removed can be or is gone, and the links are written; then every pointer and the links are as captured |
| GenerationLifecycle.Workspace.Activate | host-shell/src/generation_lifecycle.rs:770-903 | all or nothing, with the exact condition of each of the five outcomes: refused inputs touch nothing; an activation points every app at the target, drops the target as candidate, takes over the row's toolchain, and makes p `previous` exactly if every app pointed at p and p is not the target; a roll-back leaves every pointer as it was exactly if none was present but unresolvable |
| GenerationLifecycle.Workspace.ActivateAndRollBack | host-shell/src/generation_lifecycle.rs:770-903 | an activation away from a common generation g can be rolled back: as long as g is a coherent row the rollback is not refused, when it goes through every app points at g again, and the generation just left is the next `previous` |
| GenerationLifecycle.ActivatedIsActive | host-shell/src/generation_lifecycle.rs:105-122 | after an activation the view shows the target as active |
| CircuitBreaker.Breaker.CircuitOpen | host-shell/src/app_runtime_proxy.rs:448-468 | answers when to retry exactly while open, and only expires an opening that has passed |
| CircuitBreaker.Breaker.ProxyRequest | host-shell/src/app_runtime_proxy.rs:83-156 | a request is refused exactly before the deadline; one that is sent and gets a response clears the app's circuit, one that finds the runtime unreachable counts one more failure and from the fifth on sets the deadline, any other leaves what the check left; other apps stay |
| CircuitBreaker.Breaker.ServeAll | host-shell/src/app_runtime_proxy.rs:83-156 | over all sequences of requests to any apps with a clock that does not go back: a request is refused exactly if at least 5 sent requests of its app since the last response found the runtime unreachable and it comes before the last of these plus 5000 ms |
| CircuitBreaker.ReplayMatches | host-shell/src/app_runtime_proxy.rs:448-483 | the stored counter and deadline as a function of the history, saturation included |
| CircuitBreaker.OpenIffHistory | host-shell/src/app_runtime_proxy.rs:448-483 | for every history and clock: open exactly when at least 5 failures since the last success, before the last failure plus 5000 ms, and no check has seen this opening expire |
| CircuitBreaker.BreakerRefinesHistory | host-shell/src/app_runtime_proxy.rs:448-483 | with a clock that does not go back, the last condition falls away |
| CircuitBreaker.ChecksNeverChangeAnswers | host-shell/src/app_runtime_proxy.rs:448-456 | removing all checks from a history changes no answer |
| CircuitBreaker.AppsAreIndependent | host-shell/src/app_runtime_proxy.rs:442-446 | an app's circuit is that of the history restricted to its own events |
| CircuitBreaker.BackwardsClockDiffers | host-shell/src/app_runtime_proxy.rs:452-455 | a history with a clock that goes back, on which breaker and history disagree |
| PagePack.FillPagePackSlots | host-shell/src/host_page_pack.rs:176-191 | the loop computes the successive count-and-replace, and whatever the values are, a returned page has no slot left |
| PagePack.CheckSlots | host-shell/build.rs:178-192 | the loop accepts exactly the templates the specification accepts |
| PagePack.MarkersAreSlotsAndText | host-shell/src/host_page_pack.rs:180-186 | for arbitrary text between slots, counting a marker sees the slots of that name and what the runs of text contain, and if they contain none, replacing hits exactly the slots |
| PagePack.CheckAcceptsExactly | host-shell/build.rs:178-192 | the build-time check accepts a template with brace-free text exactly when each required slot occurs once and no other slot occurs |
| PagePack.CheckOnArbitraryText | host-shell/build.rs:178-192 | with arbitrary text and each required slot once, the check accepts every template that shows no opening `{{mei:` when all slots are deleted at once, and no other unless deleting slot after slot forms a marker |
| PagePackTemplates.CheckMayMissFormedMarker | host-shell/build.rs:178-192 | a template in which a deletion forms a marker is accepted with its slots in one order and refused in the other, and shows an opening when both are deleted |
| PagePack.FillIsSubstitution | host-shell/src/host_page_pack.rs:176-191 | for arbitrary text and values, filling slots one after the other has the outcome of substituting all at once and then looking for an opening `{{mei:` |
| PagePack.AcceptedTemplateFills | host-shell/src/host_page_pack.rs:176-191 | for every accepted template and all values, the fill is the simultaneous substitution, and fails exactly if an opening `{{mei:` shows on the page so assembled |
| PagePack.BraceFreeFillSucceeds | host-shell/src/host_page_pack.rs:176-191 | text and values without an opening brace form no marker, so such a fill always succeeds |
| PagePack.FillSucceedsExactly | host-shell/src/host_page_pack.rs:176-191 | with brace-free text and values a fill succeeds exactly when the listed slots are distinct, each occurs once, and the template has no other |
| PagePack.ValueWithOpeningFails | host-shell/src/host_page_pack.rs:187-190 | a value that shows an opening `{{mei:` by itself always makes the fill fail |
| PagePack.SlotOrderIsIrrelevant | host-shell/src/host_page_pack.rs:176-191 | the order in which the slots are listed does not matter, whatever the values |
| PagePackTemplates.BuiltInTemplatesAreAccepted | host-shell/build.rs:22-113 | each of the three built-in templates passes the check |
| Scopes.ScopeParts | host-shell/src/dev_eval_scope.rs:339-348 | trimming whitespace and then slashes leaves at most one of the prefixes `content:` and `scope:`, then slashes, then the normalized scope, which has no slash at its ends |
| Scopes.NormalIffKept | host-shell/src/dev_eval_scope.rs:339-348 | normalizing changes nothing exactly if there is neither whitespace nor a slash at the ends and none of the two prefixes |
| Scopes.SegmentsSplit | host-shell/src/dev_eval_scope.rs:265-267 | the segments of a scope have no slash, and joined by slashes give the scope back |
| Scopes.CoversBySegments | host-shell/src/dev_eval_scope.rs:265-267 | a prefix matches exactly if it is `*` or its segments are the first of the scope's |
| Texts.TrimIs | host-shell/src/dev_eval_scope.rs:341-341 | trimming removes whitespace from both ends and nothing else, and leaves none there |
| RuntimeModes.RuntimeModeForScope | host-shell/src/dev_eval_scope.rs:255-277 | the loop computes the specified resolution |
| RuntimeModes.ScanFindsLastLongest | host-shell/src/dev_eval_scope.rs:261-275 | the running best is the last target among the longest matches, or the default when nothing matched |
| RuntimeModes.ResolvesToLastLongest | host-shell/src/dev_eval_scope.rs:255-277 | the answer is the mode of the last longest match if anything matches, else the default |
| RuntimeModes.SingleTargetDecides | host-shell/src/dev_eval_scope.rs:255-282 | for the plan entry of the app, or else of `*`, with one target: scopes that begin with the target's segments get its mode, all others the default |
| RuntimeModes.TargetReachesBelowItself | host-shell/src/dev_eval_scope.rs:265-267 | a target p other than `*` gives its mode to p and to p, a slash and anything, and the default to every longer name p and x |
| RuntimeModes.NoEntryGivesDefault | host-shell/src/dev_eval_scope.rs:280-282 | an app without an entry in a plan that has none for `*` gets the default everywhere |
| RuntimeModes.LengthCountsBytes | host-shell/src/dev_eval_scope.rs:269-270 | the length by which matches are compared is that of the UTF-8 bytes |
| RuntimeModes.EqualLengthMatchesAreEqual | host-shell/src/dev_eval_scope.rs:263-270 | matches of equal length are the same prefix, the wildcard apart |
| RuntimeModes.OrderIrrelevantIffLongestAgree | host-shell/src/dev_eval_scope.rs:255-277 | every order of the targets gives the same answer exactly when all longest matches have the same mode |
| RuntimeModes.DistinctScopesAreOrderFree | host-shell/src/dev_eval_scope.rs:255-277 | with distinct normalized scopes, and no one-byte scope beside the wildcard, order never matters |
| RuntimeModes.RewarmIffSomethingThaws | host-shell/src/dev_eval_scope.rs:216-253 | rewarm is allowed exactly when the default, a target or a metric override of the effective plan is not Frozen, for `*` too |
| RuntimeModes.ProfileFollowsPlan | host-shell/src/dev_eval_scope.rs:284-319 | the derived profile is Full exactly for a Hot default, and Static exactly if the default and everything in the entries looked at is Frozen |
| RuntimeModes.PermissionsFollowLongest | host-shell/src/dev_eval_scope.rs:183-213 | evaluation is allowed exactly where the last longest match, or the default without one, is Hot or Lazy, warmup exactly where it is Hot |
| RuntimeModes.PermissionsNest | host-shell/src/dev_eval_scope.rs:183-253 | for every plan, app and scope, warmup implies evaluation and evaluation implies rewarm |
| PercentCoding.DecodeBytes | host-shell/src/client_trace.rs:82-104 | the index loop ends and computes the recursive decoder |
| PercentCoding.DecodeClientCmdLabel | host-shell/src/client_trace.rs:82-104 | the whole decoder: trim, nothing for nothing, the byte loop, and the lossy reading of its bytes as text |
| PercentCoding.HexDigitsAre | host-shell/src/client_trace.rs:106-113 | the sixteen digits are read in either case, and no other byte is |
| PercentCoding.EitherCaseDecodes | host-shell/src/client_trace.rs:91-98 | a percent sign and the two digits of a byte, in either case, decode to that byte |
| Utf8Coding.LossyInvertsUtf8 | host-shell/src/client_trace.rs:103-103 | the lossy reading loses nothing of well-formed text |
| Utf8Coding.LossyCounts | host-shell/src/client_trace.rs:103-103 | of any bytes, the lossy reading keeps exactly the ASCII ones, and a character beyond ASCII that is no replacement takes at least two of the others |
| PercentCoding.StandardRoundTrip | host-shell/src/client_trace.rs:48-59 | the decoder inverts the percent encoding of UTF-8 bytes on every string, whichever printable characters other than the percent sign are left as they are |
| PercentCoding.RoundTripIffAscii | host-shell/src/host_scoped.rs:100-108 | decoding what the Host's path encoder makes of a string returns that string exactly when it is ASCII |
| PercentCoding.EncodesOutright | host-shell/src/host_scoped.rs:100-108 | the path encoder leaves letters, digits and `-`, `.`, `_`, `~`; any other character becomes a percent sign and its code point in upper-case hexadecimal of at least two digits, without superfluous zeros |
| PercentCoding.EncodeAppends | host-shell/src/host_scoped.rs:101-107 | it encodes one character after the other |
| PercentCoding.EachEscapeShortensByTwo | host-shell/src/client_trace.rs:82-104 | every position at which a valid escape starts is decoded, and shortens the text by exactly 2 |
| PercentCoding.DecodeKeepsExactlyEscapeFree | host-shell/src/client_trace.rs:82-104 | text is kept literally exactly when it has no valid escape |
| PercentCoding.EncodingLosesHighBytes | host-shell/src/host_scoped.rs:100-108 | in the bytes of the decoder's loop, before they are read as text, a string with a character that is not ASCII has strictly fewer bytes above 127 than its UTF-8 |
| PercentCoding.EncodingIsTrimmed | host-shell/src/client_trace.rs:82-84 | an encoding has no byte that the decoder would trim |
| OpsJobs.ShellState.BeginOpsJob | host-shell/src/build_ops.rs:764-771 | accepted exactly when no job is running |
| OpsJobs.ShellState.BeginProfileOpsJob | host-shell/src/build_ops.rs:773-795 | the same, with the profile and one queued row per app |
| OpsJobs.ShellState.UpdateOpsAppProgress | host-shell/src/build_ops.rs:814-831 | the search updates the first row of the app, if any, and logs either way |
| OpsJobs.ShellState.AppendLog | host-shell/src/build_ops.rs:106-108 | one more line on the log of the job in the slot, if there is one, and nothing else |
| OpsJobs.ShellState.FinishOpsJobSuccess | host-shell/src/build_ops.rs:843-858 | the job leaves the slot as the last finished one |
| OpsJobs.BeginShows | host-shell/src/build_ops.rs:764-795 | the whole job after a begin on a free slot: queued, with the log line `job queued`, and for a profile its identity and one queued row per app |
| OpsJobs.UpdateShows | host-shell/src/build_ops.rs:797-812 | a phase update sets the phase, a generation update the generation, an append neither; each logs its one line, and the rest of the job and the last one stay |
| OpsJobs.AppUpdateShows | host-shell/src/build_ops.rs:814-831 | a progress update replaces the first row of the app, if there is one, and logs either way |
| OpsJobs.FinishShows | host-shell/src/build_ops.rs:843-874 | a finish empties the slot and keeps the job with its status, phase, end, message or error, and a last log line |
| OpsJobs.OtherwiseNothing | host-shell/src/build_ops.rs:764-874 | over every run, a begin on a taken slot and any other call on an empty one change nothing |
| OpsJobs.PushKeepsNewest | host-shell/src/build_ops.rs:98-104 | dropping the oldest line at an overflow keeps exactly the newest 24 |
| OpsJobs.ShellFollowsReference | host-shell/src/build_ops.rs:764-874 | over every run of calls the job in the slot is running, and it and the last finished job are those of a reference with unbounded logs, each with exactly the newest 24 lines |
| OpsJobs.JobsTellHow | host-shell/src/build_ops.rs:843-874 | over every run the last finished job has a message exactly if it succeeded and an error exactly if it failed; the running job has neither |
| OpsJobs.JobKeepsItsRows | host-shell/src/build_ops.rs:797-831 | whatever is called on a job, it keeps its kind, start, profile and one row per app in order |
| OpsJobs.BeginsAndFinishesAlternate | host-shell/src/build_ops.rs:764-874 | accepted begins and effective finishes alternate, and the slot is taken exactly after an unfinished begin |
| OpsJobs.SlotDiscipline | host-shell/src/build_ops.rs:764-874 | after any run, which calls change the slot and the last finished job, and to what |

## Modelling decisions

- The revision digest is kept symbolic: a revision is its contents, so different contents have
  different revisions. The manifest's workspace root and its record of the last apply do not change
  in the modelled steps and are left out of the contents.
- An id found in a persisted manifest is taken to differ from every id this process mints; minted ids
  are told apart by their counter, which is unbounded here.
- Whatever the environment decides (a healthy child, a working disk, a failing attach, a clock
  reading) is a parameter.
- An operation may be dropped at any of its awaits, except by the holder of the mutation lock, whose
  steps do not await.
- A cutover leaves the replaced instance on Standby until it is retired, as the code does.

## Left out

- LaunchResults.ActiveRoutesAreServed: crashes, watchdog restarts, the instance-stop interface and the writers that bypass the mutation lock (enabling apps, applying a profile, registering candidates of a generation) are not steps of this protocol.
- LaunchEndpoints.QuiescentEndpointsArePooled: the endpoint table is also rewritten from the pool after a watchdog's restart, which is not a step of this protocol.
- LaunchStranding.QuiescentPoolIsRouted: processes whose child has exited count as pooled.
- ChildProcesses.QuiescentPoolIsAllThatLives: a kill that fails is not modelled; the child is gone once its handle has been shut down or dropped.
- CircuitBreaker.Breaker.ProxyRequest: clock readings are parameters; that another request may take the breaker's lock between a reading and its use is not modelled.
- Supervisor.AppRuntimeSupervisor.ReconcileTwice: the order of the two reports is stated where ids render to distinct keys, as the keys of a map do.
- RuntimeModes.RewarmIffSomethingThaws: configurations that come from the command line or the workspace file instead of a plan take another branch and are left out, as are the derived scope lists.
- OpsJobs.JobKeepsItsRows: a caller outside these functions renames the kind of a build job right after its begin; that write is not one of the calls.
- The route table and its `starting` placeholder, the proxy's snapshot, events, launch configuration, compat symlinks and spec files: they follow the manifest and carry no decision of the protocol.
- The readiness test of a cutover reads endpoints and pool in one step.
- LaunchStranding.StrandedIsNeverRoutedAgain: a rollback of the route is not a step of these runs, and can reach such a process.
- As steps of the protocol: route rollback, direct cutover requests, multi-candidate launches and the restart variant that keeps the pool lock.
- The orphan sweep of processes left by earlier Hosts, PID files, sockets, health polling and tokens.
- `collect_observed_instances`, `route_context_for` and the protected-reason lists: projections of the same state.
- Digests, the `<script` check and the source contract of page packs; retention and cleanup of generations; availability and validity of a generation's files, which enter as the set of coherent generations.
- HTTP handlers, rendering, logging, command-line parsing and JSON shapes.
