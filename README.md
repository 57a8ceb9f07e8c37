# Docker scheduler core, modelled in Dafny

This project models the Docker-backed scheduler of the microscaling
autoscaler (`scheduler/docker/docker.go`). The scheduler keeps a record
store: for each registered task name (one that `InitScheduler` gave an
entry), a map from 12-character short
container IDs to a record holding the container's last known state and a
"seen in this listing" flag. It works over a shared collection of tasks,
each with a `demand`, a `requested` count and a `running` count. The model
covers five pieces:

- **Status classification** (`statusToState`). A Docker status string
  becomes one of running, removing, exited, dead or unknown. The markers
  "Up", "Removal", "Exit" and "Dead" are tried in that order. `Status.Apply`
  is the transition rule, applied each time a listing reports a record, and
  `Status.Settle` applies a sequence of reports (module `Status`).
- **Scaling pass** (`StopStartTasks`). Tasks with too many replicas, and no
  change in flight, get `requested - demand` stop attempts. Then tasks with
  too few get `demand - requested` start attempts. `requested` moves by one
  per attempt, whatever the attempt's outcome. The pass returns the outcome
  of its last stop attempt. Modules `Planning` and `Scheduler` cover this.
- **Stopping one container** (`stopTask`). A running record is chosen and
  marked stopping. It becomes removing once the stop call succeeds. With no
  running record the call fails and changes nothing.
- **Starting one container** (`startTask`). A successful create adds a
  created record under the short ID. A successful start then marks it starting.
- **Listing pass** (`CountAllTasks`). The pass resets the running counts and
  seen flags. It folds the runtime's container list into the store,
  recounts running replicas, and drops unseen records of containers that
  are removing or have exited (module `Observation`).
- **Task registration** (the map reset in `InitScheduler`).

Runtime calls are replaced by their outcomes, given as inputs:
- a `Runtime` value gives, for task `n`'s `j`-th attempt in a pass, the ID
  a create call returns (or none) and whether the start and stop calls succeed;
- the container list is an `Option<seq<Reported>>`, where None means listing failed.

Each background unit of work runs to completion in place, at the point
where the source launches it. The pass's final wait is then a no-op.

The imperative operations are methods of the class
`Scheduler.DockerScheduler`. Its field `taskContainers` is the record store.
The task collection is the class `Demand.Tasks`, whose field `items` is
updated in place. Each method is proved against a specification function:
`Plan`, `PassError`, `StartEffect`, `Launched`, `MarkRecord`, `Reconcile`
and `Counted`. The properties of the source are proved about those functions as lemmas.

## Model

| member | source | states |
|---|---|---|
| Status.StatusToState | scheduler/docker/docker.go:243-258 | the result is always one of running, removing, exited, dead, unknown |
| Status.StatusPriority | scheduler/docker/docker.go:243-258 | each classification holds exactly when its marker occurs in the status and no marker tried earlier does; a status containing "Up" is running whatever else it contains |
| Strings.ContainsIffOccurs | scheduler/docker/docker.go:244-253 | the substring test used by the classifier holds exactly when the marker occurs at some position of the status |
| Status.Apply | scheduler/docker/docker.go:308-328 | one report changes a record only to the reported state, and only when the report is running or dead; a dead record stays dead and a dead report always makes the record dead |
| Status.SettleClosedForm | scheduler/docker/docker.go:312-330 | the effect of a sequence of reports on a record: any dead report makes it dead; otherwise a running report promotes a starting or unset record; otherwise the state is kept |
| Status.SettleIdempotent | scheduler/docker/docker.go:312-330 | applying the same reports to a record a second time changes nothing |
| Status.TerminatingNotRevived | scheduler/docker/docker.go:312-317 | a stopping or removing record is never put back to running by reports; only a dead report changes it |
| Demand.Find | scheduler/docker/docker.go:295 | the task lookup returns the position of the first task with that name, and fails exactly when no task has it |
| Records.StopOneRunning | scheduler/docker/docker.go:147-153 | marking one running record stopping or removing takes exactly that record out of the running set and changes nothing else |
| Records.StopsAppliedShrinksRunning | scheduler/docker/docker.go:147-153 | stopping records never adds a running record |
| Records.LaunchedAt | scheduler/docker/docker.go:109-135 | after a task's start attempts, a successful create whose short ID no later create of the pass returns again leaves one record under that ID, not seen: starting if its start succeeded, created if it failed |
| Records.LaunchedElsewhere | scheduler/docker/docker.go:109-113 | a record whose ID no create call returned is neither added nor changed by the start attempts; failed creates add nothing |
| Records.LaunchedFresh | scheduler/docker/docker.go:115-135 | every record the start attempts leave is either an old record unchanged, or a new one in state created or starting and not seen |
| Planning.IndicesSpec | scheduler/docker/docker.go:203-213 | the selection holds exactly the positions of the tasks with too many (too few) replicas and no change in flight, in collection order, each once |
| Planning.PlanStopsFirst | scheduler/docker/docker.go:215-236 | in a pass every stop attempt comes before every start attempt |
| Planning.PlanCounts | scheduler/docker/docker.go:215-236 | with unique names, a task with too many replicas gets exactly `requested - demand` stop attempts; one with too few gets exactly `demand - requested` start attempts; every other task gets none |
| Planning.PlanSkips | scheduler/docker/docker.go:203-213 | a task with `requested != running`, or already at its demand, gets no stop and no start attempt |
| Planning.BalancedPlanIsEmpty | scheduler/docker/docker.go:203-236 | a pass over tasks each of which is either at its demand or mid-change (`requested != running`) issues no attempt |
| Planning.PassComposition | scheduler/docker/docker.go:215-236 | after both loops every selected task is at its demand and every other task is unchanged; too-many tasks have had their stops; too-few tasks have had their starts; no other task's records changed |
| Observation.ObserveAllAt | scheduler/docker/docker.go:288-333 | folding in the list, record by record: a reported record holds the state its reports settle on and is seen; an unreported one is unchanged; no other record appears; entries of names outside the task collection are untouched |
| Observation.ReconcileAt | scheduler/docker/docker.go:276-348 | after a listing pass: a reported record survives, holds its settled state and is seen; an unreported record is dropped exactly when it is removing or exited, and is otherwise kept with its state and its flag cleared; no other record appears |
| Observation.ReconcileIdempotent | scheduler/docker/docker.go:276-348 | running the listing pass a second time over the same list leaves the record store as the first pass left it |
| Observation.RecountStable | scheduler/docker/docker.go:278-299 | counting again over the same list gives every task the same running count |
| Observation.IgnoresUnclaimed | scheduler/docker/docker.go:288-297 | a container with no ownership label, or labelled with a name no task has, changes neither the record store nor any running count |
| Scheduler.ClearFlags | scheduler/docker/docker.go:281-283 | clears the seen flag of every record of one task and changes nothing else |
| Scheduler.Sweep | scheduler/docker/docker.go:337-346 | deletes exactly the unseen records that are removing or exited; keeps every other record as it was |
| Scheduler.Select | scheduler/docker/docker.go:203-213 | the selection loop computes exactly the too-many and too-few positions |
| Scheduler.DockerScheduler.InitScheduler | scheduler/docker/docker.go:61 | the task's entry becomes empty, whether or not it existed; no other entry changes |
| Scheduler.DockerScheduler.StartTask | scheduler/docker/docker.go:109-135 | a failed create changes nothing; a successful one records the container as created under its short ID, then as starting if the start succeeds |
| Scheduler.DockerScheduler.StopTask | scheduler/docker/docker.go:140-189 | fails with no-container-to-stop, changing nothing, exactly when the task has no running record; otherwise marks exactly one running record stopping, or removing if the stop call succeeds |
| Scheduler.DockerScheduler.StopRepeatedly | scheduler/docker/docker.go:217-225 | `requested - demand` stop attempts for one task, lowering `requested` to `demand`. If `k` records were running and `n` attempts were made, `min(k, n)` leave the running set and only by becoming stopping or removing. The last attempt fails exactly when `k < n`. No other task's records change |
| Scheduler.DockerScheduler.StartRepeatedly | scheduler/docker/docker.go:230-235 | `demand - requested` start attempts for one task, raising `requested` to `demand`; the task's records become those the attempts' outcomes produce, and no other task's records change |
| Scheduler.DockerScheduler.StopSelected | scheduler/docker/docker.go:216-226 | one round of the scale-down loop: the selected task's `requested - demand` stop attempts are issued, it is settled at its demand with its stops applied, earlier rounds' effects are kept, and the result is that task's last stop outcome |
| Scheduler.DockerScheduler.ScaleDown | scheduler/docker/docker.go:216-226 | the scale-down loop: each selected task has its stops and is at its demand, the attempts are issued in selection order, and the result is the last attempt's outcome |
| Scheduler.DockerScheduler.ScaleUp | scheduler/docker/docker.go:229-236 | the scale-up loop: each selected task has its starts and is at its demand, in selection order |
| Scheduler.DockerScheduler.StopStartTasks | scheduler/docker/docker.go:192-241 | one scaling pass: the attempts issued are the plan (stops first, counts as above); selected tasks end at their demand and others keep their counts; the error is the outcome of the last stop attempt, or none; too-many tasks' records only lose running records; too-few tasks' records are those their starts produce; other tasks' records are unchanged |
| Scheduler.DockerScheduler.ResetCounts | scheduler/docker/docker.go:276-284 | every task's running count becomes zero and the records of every task in the collection have their seen flag cleared |
| Scheduler.DockerScheduler.RecordReport | scheduler/docker/docker.go:298-330 | one report: a record absent before is taken as unset; its state moves by the transition rules; it is marked seen |
| Scheduler.DockerScheduler.ObserveReport | scheduler/docker/docker.go:289-331 | one listed container: if it claims a task of the collection, its record is updated and, when running, the task is credited with one running replica; otherwise nothing changes |
| Scheduler.DockerScheduler.ObserveReports | scheduler/docker/docker.go:288-333 | the observation loop folds the whole list into the store and sets each task's running count to the number of running containers labelled with its name, credited to the first task of that name |
| Scheduler.DockerScheduler.CollectRecords | scheduler/docker/docker.go:335-348 | the collection loop drops exactly the unseen removing or exited records of every task of the collection |
| Scheduler.DockerScheduler.CountAllTasks | scheduler/docker/docker.go:261-351 | a failed listing returns the list error and changes nothing; otherwise the store becomes the reconciled store and each task's running count the number of running containers labelled with its name (credited to the first task of that name), and the pass returns no error |

## Left out

- Docker client calls (creating the client, pulling images, creating, starting, stopping, removing and listing containers) are not modelled as calls. Their outcomes are inputs: a `Runtime` value and the listing `Option<seq<Reported>>`.
- The outcome of the remove call after a successful stop is only logged by the source, so it is not an input.
- Goroutines, the wait group and both locks are left out. Each start or stop unit runs to completion at the point where it is launched, and the final wait does nothing. Interleavings, and the race of adding to the wait group inside the goroutine, are not modelled.
- Which running container a stop picks follows Go's unspecified map iteration order. The model picks nondeterministically; the contract holds for any choice.
- Building the create and remove options (labels, command splitting, environment, network mode, port publishing) is left out. Only the ownership label key is kept, as `Observation.LabelKey`.
- Logging is left out. All anomaly messages are log-only and affect neither state nor results.
- Image pulling in `InitScheduler`, and the error it may return, are left out. Only the reset of the task's entry is modelled.
- `NewScheduler` and `Cleanup` are left out. The first is client construction and the second is a no-op.
- Go's `strings.Contains` and the `ID[:12]` slice work on bytes; the model works on characters. The two agree for Docker's hexadecimal container IDs and the ASCII status markers, and differ only for strings with multi-byte characters.
- Go's fixed-width `int` is modelled as unbounded; counters that overflow are out of scope.
- The `demand` package is not part of this model. Its task lookup is modelled as `Demand.Find` (first task of the name), and the collection as `Demand.Tasks`.
- Scheduler.DockerScheduler.InitScheduler: re-registering a name resets its entry and returns no error. The code reports no duplicate registration, and the model follows the code.
- Scheduler.DockerScheduler.StopStartTasks: requires unique task names, because the per-task stop and start results are stated per name. It also requires every too-few task to have an entry, which the source needs only when a create succeeds (recording into a missing entry panics in Go).
- Scheduler.DockerScheduler.CountAllTasks: requires every claimed container's task to have an entry and a container ID of at least 12 characters. The source panics otherwise; it writes into a missing entry and takes a 12-character prefix.
- Scheduler.DockerScheduler.StartTask: requires the task's entry to exist when the create succeeds. The source panics otherwise.
- Scheduler.DockerScheduler.StopStartTasks: returns the attempts it issued as a list of units (`Planning.Unit`) to state order and counts. The source has no such value.
