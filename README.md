# Cluster supervision examples, modelled in Dafny

`Cluster-basics.js` documents Node's `cluster` module. It does this through example programs
embedded in template literals. The primary-side programs in it supervise a set of worker
processes:

- a **health monitor**: a table of per-worker heartbeat records, a restart policy with linear
  backoff and a cap of five restarts, and a periodic sweep that kills silent workers;
- a **zero-downtime restart**: a pool of workers; `gracefulRestart` forks a new set and
  disconnects the old set once the new one listens;
- the **restart-on-exit rule**: fork one replacement for every exit that was not asked for;
- **timeout-escalated termination**: `gracefulKill`, `gracefulDisconnect` and `gracefulShutdown`
  disconnect first and force a kill at the timeout;
- the **worker lifecycle**: fork, online, listening, messages, disconnect, exit, and the
  `isConnected()` / `isDead()` predicates.

The supervisor programs are modelled imperatively, following the JavaScript:

- The health monitor, the rolling restart, the respawner, `gracefulKill` and
  `gracefulDisconnect` are classes. Their methods are the programs' event listeners and timer
  callbacks.
- Their state is the program's own variables: `workerHealth`, `workers`, `readyCount`, the
  pending timers.
- `gracefulShutdown` keeps no state of its own. It is three module-level methods over the host:
  the call itself, the exits that follow, and the timer callback.
- All the programs share a `Cluster.Host`. It stands for what they call in Node:
  - `fork()` hands out ids 1, 2, 3, …;
  - `cluster.workers` holds the ids forked and not yet exited, in ascending order;
  - every fork, kill, disconnect, timer and `process.exit` is appended to an effect log, and so
    are the health monitor's three console reports (restarting, given up, heartbeat timeout).
    The other console messages leave no trace (see "## Left out").
- Time is the `now` parameter of each callback.
- A timer firing is a method call.
- `worker.exitedAfterDisconnect` arrives as a parameter of the exit event.

The worker lifecycle is documented as an order of events, not as a program. It is modelled
as a pure state machine, `Lifecycle.Step` and `Lifecycle.Run`, with lemmas about accepted
traces.

The methods are proved against specification functions: `ExitDecision`, `SweepLog`, `Swept`,
`Firings` and `ForcedKill`. The properties are lemmas about those functions. Some claims span
a whole run. For those, a method drives the programs through an arbitrary event sequence and
states the resulting effect log or state:

- `RunGracefulKill`, `RunGracefulDisconnect` and `RunShutdown`;
- `RunRespawner`;
- `CrashLoop` and `CrashLoopCarried`;
- `Pool.ListenRound`, `Pool.ListenRoundFixed` and `RestartThenAllListen`.

Modules:

- `Base`: the helpers `Without` (`Array.filter`) and `Iota` (the ids of consecutive forks);
- `Cluster`: the host;
- `HealthMonitor`;
- `RollingRestart`;
- `ExitRule`;
- `Termination`;
- `Lifecycle`.

## Model

| member | source | states |
|---|---|---|
| Base.Without | Cluster-basics.js:288 | The result holds exactly the elements of the list other than the removed one. It is no longer than the list, and it is the list itself when the element is absent. |
| Base.WithoutLength | Cluster-basics.js:288 | On an ascending id list, filtering removes exactly one element when the id is present and none otherwise. |
| Base.WithoutIncreasing | Cluster-basics.js:288 | Filtering keeps an id list ascending. |
| Base.Iota | Cluster-basics.js:799 | The ids of `n` forks starting at `start` are `start, start+1, …`, in order. |
| Cluster.Host.constructor | Cluster-basics.js:799 | A fresh primary has forked nothing, its next id is 1, and `cluster.workers` is empty. |
| Cluster.Host.Fork | Cluster-basics.js:799 | `fork()` returns the next id (1, 2, 3, …) and appends it to `cluster.workers`. It logs the fork and keeps the ids ascending and below the next id. |
| Cluster.StartPrimary | Cluster-basics.js:238-240 | A primary that forks `n` times has workers 1 … n, in order, and has logged exactly those forks. |
| Cluster.Host.Exited | Cluster-basics.js:504-505 | An exit removes exactly that id from `cluster.workers`, so a later `cluster.workers[id]` lookup finds nothing. The next id is unchanged. |
| HealthMonitor.ExitDecision | Cluster-basics.js:479-488 | Nothing happens exactly when the worker has no record or exited after a disconnect. Otherwise the count is the old count plus one. A restart is scheduled if and only if that count is below 5, with a delay of 1000 times the count. When it is not below 5 the exit is only reported. |
| HealthMonitor.ExitLog | Cluster-basics.js:484-487 | The exit listener logs nothing exactly when the outcome is to forget the worker. It logs two entries, the report and the restart timer, exactly when a restart is scheduled. It never forks or kills by itself. |
| HealthMonitor.Stale | Cluster-basics.js:502 | A record is stale when strictly more than 30000 ms have passed since its last heartbeat. |
| HealthMonitor.SweepStep | Cluster-basics.js:502-508 | A visit logs nothing exactly when the record is not stale. It kills the worker, with SIGTERM, exactly when the record is stale and the worker is in `cluster.workers`. It logs nothing but that worker's report and kill. |
| HealthMonitor.SweepLog | Cluster-basics.js:501-510 | A sweep logs at most two entries per visited id, and only heartbeat-timeout reports and SIGTERM kills. |
| HealthMonitor.SweptRecord | Cluster-basics.js:502-507 | A visit keeps the heartbeat and the restart count. The record stays healthy exactly when it was healthy and was not both stale and in `cluster.workers`. |
| HealthMonitor.Swept | Cluster-basics.js:501-510 | After the sweep the keys are unchanged, as are every record's heartbeat and restart count. A record is healthy afterwards if and only if it was healthy and was not both stale and present in `cluster.workers`. |
| HealthMonitor.SweepKillsExactlyStale | Cluster-basics.js:501-510 | The sweep kills a worker if and only if it was visited, has a record, has been silent for strictly more than 30000 ms, and is in `cluster.workers`. The signal is always the default SIGTERM. |
| HealthMonitor.SweepReportsExactlyStale | Cluster-basics.js:502-503 | The sweep reports a heartbeat timeout for exactly the visited stale records, live or not. |
| HealthMonitor.SweptUpToLookup | Cluster-basics.js:501-506 | Part-way through the sweep, the records already visited are swept and the others are untouched. The keys never change. |
| HealthMonitor.Visit | Cluster-basics.js:502-508 | One visit changes only the visited record, to its swept form. It adds exactly that worker's sweep effects: the report when stale, plus the kill when it is also live. |
| HealthMonitor.VisitAll | Cluster-basics.js:501-510 | The `for … of` loop produces the swept table and exactly the effect sequence of the sweep specification, in insertion order. |
| HealthMonitor.Monitor.constructor | Cluster-basics.js:514-517 | Start-up forks workers 1 … numCPUs. Each gets a healthy record stamped `now` with restart count 0. |
| HealthMonitor.Monitor.CreateWorker | Cluster-basics.js:457-465 | One fork, and a record for exactly the new id: healthy, heartbeat `now`, count 0. Every other record is unchanged. |
| HealthMonitor.Monitor.CreateWorkerInSlot | Cluster-basics.js:485 | Corrected replacement: the new record starts at the restart count the exit produced. Otherwise it behaves like `CreateWorker`. |
| HealthMonitor.Monitor.OnMessage | Cluster-basics.js:468-476 | A heartbeat for an id with a record sets its heartbeat to `now` and marks it healthy, keeping its count. Any other message, or an id without a record, leaves the table unchanged. |
| HealthMonitor.Monitor.OnExit | Cluster-basics.js:478-491 | The decision is `ExitDecision` on the old record. The record is deleted on every exit, intentional or not. The worker leaves `cluster.workers`. The log gains exactly the report and timer of the decision. |
| HealthMonitor.Monitor.Sweep | Cluster-basics.js:497-511 | The table becomes `Swept` of the old table. The log gains `SweepLog` over the insertion order. The list of forked workers is unchanged. |
| HealthMonitor.Monitor.ExitThenTimer | Cluster-basics.js:478-491 | An unexpected exit is decided by `ExitDecision`, and its record is deleted. When a restart is scheduled, the timer forks the next id and gives it a healthy record stamped `now`. That record's count is 0 as written (line 464), or the exit's new count when carried. The whole new state is given: the table, the insertion order, `cluster.workers` and the log (the exit's entries, then the fork). |
| HealthMonitor.CrashLoop | Cluster-basics.js:478-491 | As written: a worker that crashes any number of times, each replacement being created by `createWorker`, gets restart 1 with a 1000 ms delay every time. The cap is never reached. |
| HealthMonitor.CrashLoopCarried | Cluster-basics.js:483-488 | Corrected: with the count carried into the replacement, the k-th crash is restart k with delay 1000·k for k < 5. The fifth crash is given up, so at most five exits are handled. |
| RollingRestart.Firings | Cluster-basics.js:309-316 | Counts the events of a round that disconnect the old set. There are at most as many as events, and none unless some event's count equals the `workers.length` it sees. |
| RollingRestart.FiresAtMostOnce | Cluster-basics.js:307-316 | While `workers.length` does not grow, the counting listener disconnects the old set at most once. Once the count reaches the length, later events never fire. |
| RollingRestart.NoLaterFiring | Cluster-basics.js:310-311 | A corollary of the contract of `Firings`. Once the count is at or past every later length, no more disconnects happen. |
| RollingRestart.FixedTargetFiresOnce | Cluster-basics.js:307-316 | Against a fixed target the old set is disconnected exactly once if enough events arrive to reach the target, and never otherwise. |
| RollingRestart.DisconnectEach | Cluster-basics.js:313-315 | The `forEach` loop logs one disconnect per old worker, in the snapshot's order, and nothing else. |
| RollingRestart.Attach | Cluster-basics.js:308-309 | Every new worker carries the round's listener. The other entries are kept. |
| RollingRestart.Pool.constructor | Cluster-basics.js:324 | Start-up forks workers 1 … numCPUs into `workers`. There are no rounds yet. |
| RollingRestart.Pool.CreateWorker | Cluster-basics.js:281-283 | One fork, pushed onto `workers`. |
| RollingRestart.Pool.CreateWorkers | Cluster-basics.js:275-279 | `numCPUs` forks with consecutive ids, appended to `workers` in order. |
| RollingRestart.Pool.OnExit | Cluster-basics.js:285-291 | An intentional exit leaves `workers` unchanged. An unexpected one filters the worker out and appends exactly one new worker. The length is preserved when the worker was in the list, and grows by one when it was not. The next fork id advances by exactly the one fork made. |
| RollingRestart.Pool.GracefulRestart | Cluster-basics.js:297-318 | `workers` becomes exactly the `numCPUs` new workers. A new round remembers the previous list as `oldWorkers`, with the count at 0. Only the new workers get that round's listener. |
| RollingRestart.Pool.OnListening | Cluster-basics.js:309-316 | As written: the event raises its round's count by one. It disconnects every old worker, in order, exactly when the new count equals the current `workers.length`. |
| RollingRestart.Pool.OnListeningFixed | Cluster-basics.js:311 | Corrected: the same step, comparing with the size of the set the round created. |
| RollingRestart.Pool.ListenRound | Cluster-basics.js:307-316 | As written: a round's new workers listen one after another, with no exit in between. The round's count rises by the number of events. The old set is disconnected `Firings` times, which is at most once. That happens exactly when the count passes `workers.length` during these events. |
| RollingRestart.Pool.ListenRoundFixed | Cluster-basics.js:307-316 | Corrected: the same events against the round's own size. The old set is disconnected at most once, exactly when the count passes that size. |
| RollingRestart.RestartThenAllListen | Cluster-basics.js:297-324 | Start-up with numCPUs workers, a restart, and every new worker listening with no exit in between. The log is the two sets of forks, then one disconnect per old worker, in order. There is no disconnect when there are no CPUs. |
| RollingRestart.PoolOfTwoRestarted | Cluster-basics.js:297-304 | With two CPUs, a restart replaces workers 1 and 2 by 3 and 4. |
| RollingRestart.RestartThenOldWorkerCrashes | Cluster-basics.js:285-290 | Old worker 1 crashing during that restart makes `workers` equal to [3, 4, 5], and the next fork id is 6. |
| RollingRestart.OldWorkerCrashDuringRestart | Cluster-basics.js:307-316 | As written: after workers 3 and 4 listen, old worker 2 has still not been disconnected. |
| RollingRestart.OldWorkerCrashDuringRestartFixed | Cluster-basics.js:311 | Corrected: the same events disconnect old workers 1 and 2. |
| ExitRule.Unexpected | Cluster-basics.js:245 | The count of unexpected exits is 0 exactly when all exits were intentional, and equals the number of exits exactly when none was. |
| ExitRule.ForkCountOfForks | Cluster-basics.js:247 | A log of n forks counts n forks. |
| ExitRule.Respawner.constructor | Cluster-basics.js:238-240 | Start-up forks workers 1 … numCPUs. |
| ExitRule.Respawner.OnExit | Cluster-basics.js:243-249 | An exit with `exitedAfterDisconnect` forks nothing. Any other exit forks exactly one replacement with the next id. `cluster.workers` loses the exited id and gains the replacement. |
| ExitRule.RunRespawner | Cluster-basics.js:816-823 | Over any sequence of exits, the primary forks numCPUs workers plus exactly one per unexpected exit, with ids 1, 2, 3, … in that order. |
| Termination.FirstDecisive | Cluster-basics.js:1024-1026 | The first event that settles the race is either an exit or the timeout, and it occurs in the trace. There is none exactly when only disconnect events occurred. |
| Termination.FirstDecisiveSnoc | Cluster-basics.js:1020-1026 | A later event changes the outcome only while the race is still open. |
| Termination.ForcedKill | Cluster-basics.js:1020-1026 | The force-kill decision: the timeout settles the race. It can only hold when a timeout occurs in the trace. |
| Termination.ForcedKillIff | Cluster-basics.js:1051-1055 | The worker is force-killed if and only if some timeout comes with no exit before it. |
| Termination.GracefulKill.constructor | Cluster-basics.js:1017-1022 | `gracefulKill` requests the worker's disconnect and arms a kill timer. The delay is the given timeout, or 5000 ms when the argument is left out. |
| Termination.GracefulKill.OnExit | Cluster-basics.js:1024-1026 | The exit clears the kill timer. |
| Termination.GracefulKill.OnDeadline | Cluster-basics.js:1020-1022 | A timer still armed sends SIGKILL exactly once. A cleared timer does nothing. |
| Termination.GracefulDisconnect.constructor | Cluster-basics.js:1048-1051 | `gracefulDisconnect` requests the disconnect and arms the timer, with 5000 ms when no timeout is passed. |
| Termination.GracefulDisconnect.OnExit | Cluster-basics.js:1052 | After the exit, `isDead()` holds. |
| Termination.GracefulDisconnect.OnDeadline | Cluster-basics.js:1051-1056 | At the timeout, the worker gets the default signal exactly when it is not dead. |
| Termination.RunGracefulKill | Cluster-basics.js:1017-1027 | For every event trace: one disconnect, one timer (5000 ms by default), and a SIGKILL exactly when the timeout comes before the exit. Nothing else is logged. |
| Termination.RunGracefulDisconnect | Cluster-basics.js:1048-1057 | For every event trace: the same decision as `gracefulKill`, sending SIGTERM (`worker.kill()`'s default, lines 1013-1014). |
| Termination.KillRemaining | Cluster-basics.js:98-101 | The timer body kills every remaining id with SIGTERM, in key order, then calls `process.exit(1)`. A kill is sent if and only if the id remains, and always with SIGTERM. |
| Termination.BeginShutdown | Cluster-basics.js:91-96 | `gracefulShutdown` calls `cluster.disconnect()` and arms the timer with the timeout, or 10000 ms when it is left out. |
| Termination.OnShutdownDeadline | Cluster-basics.js:96-102 | The timer adds only to the end of the log. It kills exactly the workers in `cluster.workers` at that moment, in order, with SIGTERM, and the process exits with code 1. |
| Termination.ExitAll | Cluster-basics.js:94 | The exits that follow `cluster.disconnect()` remove exactly the exited ids from `cluster.workers`. |
| Termination.RunShutdown | Cluster-basics.js:91-103 | Fork n workers, shut down, and see any set of exits before the timer. A kill is then sent if and only if the worker is still in the model's `cluster.workers`, that is, it was forked and its exit has not been seen. A worker that has disconnected but still runs is killed. Every kill is SIGTERM. The disconnect and the timer (10000 ms by default) were requested, and the last effect is exit code 1. |
| Lifecycle.IsConnected | Cluster-basics.js:829-839 | `isConnected()`: the channel is open from the fork until the disconnect. |
| Lifecycle.IsDead | Cluster-basics.js:840-849 | `isDead()`: the worker has exited. A dead worker is never connected. |
| Lifecycle.Step | Cluster-basics.js:941-949 | Messages keep the phase and need an open channel. Every other event moves strictly forward in the documented order. Nothing is accepted after the exit, and the exit is accepted in every other phase. 'listening' and messages are accepted only once the worker is online or listening. |
| Lifecycle.Run | Cluster-basics.js:941-949 | The phase after a trace, or none when some event is out of order. From the dead phase only the empty trace is accepted. |
| Lifecycle.RunMonotone | Cluster-basics.js:941-949 | Along an accepted trace the phase never moves backwards. |
| Lifecycle.EventsAbove | Cluster-basics.js:941-949 | Every phase-changing event of an accepted trace lies later in the order than the starting phase. |
| Lifecycle.EventsOrdered | Cluster-basics.js:941-949 | In an accepted trace, the phase-changing events come in the documented order, each at most once. |
| Lifecycle.OnlineFirst | Cluster-basics.js:942-945 | From the fork, 'online' comes before any 'listening' event or message of an accepted trace. |
| Lifecycle.NothingAfterClose | Cluster-basics.js:944-947 | After the disconnect or the exit, no 'listening' event and no message is accepted. |
| Lifecycle.ExitIsLast | Cluster-basics.js:948 | The exit, if present, is the last event, and the worker ends dead. |
| Lifecycle.StatusAfterRun | Cluster-basics.js:829-849 | After an accepted trace, `isDead()` holds if and only if the exit occurred. `isConnected()` holds if and only if neither the disconnect nor the exit occurred. |
| Lifecycle.DocumentedOrderAccepted | Cluster-basics.js:941-949 | The documented sequence — online, listening, any number of messages, disconnect, exit — is accepted from the fork and ends dead. |
| Lifecycle.MessagesKeepListening | Cluster-basics.js:946 | Any number of messages leaves a listening worker listening. |
| Lifecycle.RunAppend | Cluster-basics.js:941-949 | Running a concatenated trace runs its parts in turn. |

## Left out

- Processes, IPC and signals are not executed. `fork`, `kill`, `disconnect`, `send` and `process.exit` are entries in the effect log, and console output is kept only as report entries.
- Timers and clocks are parameters. `setTimeout` and `setInterval` are recorded as effects, a callback firing is a method call, and `Date.now()` is the `now` argument. Real concurrency and interleaving between workers are not modelled: events arrive one at a time.
- `exitedAfterDisconnect` is an input of each exit event. Node sets it when `disconnect()` preceded the exit, and that part of Node is not part of this model.
- Cluster.Host.Exited: Node removes a worker from `cluster.workers` once it has both disconnected and exited, in whichever order the two events come. A worker that has only disconnected, whose process still runs, stays in the table. An exiting process always loses its channel too, so the model merges the two events: the worker leaves `cluster.workers` at its exit. The gap between a process ending and the report of its channel closing is not modelled.
- Termination.RunShutdown: the kill set is stated of the model's `cluster.workers`. A worker that disconnected and still runs stays there, as in Node, and is killed. A worker that has exited but whose channel close Node has not yet reported would still be in Node's table, and the timer would send it a kill. The model sends it none.
- HealthMonitor.Monitor.Sweep: `setInterval` every 10000 ms is not modelled. Each call is one tick of the interval.
- HealthMonitor.Monitor.CreateWorker: what the worker sends in its heartbeat (pid, memory, uptime) is dropped. Only the message type is modelled.
- RollingRestart.Pool.GracefulRestart: the SIGUSR2 signal handler that triggers it is a call of the method. The listener's console message is not logged.
- The block-commented shared-state example at 334-447 is not live code and is not modelled.
- The wrapper functions that only build description objects are not modelled. Neither are the SCHED_RR/SCHED_NONE scheduling policy (named, never implemented), `getRestartDelay` (never defined) or the third-party snippets (Redis, express, http, socket.io).
- The other files of the repository only call library functions or contain prose. They are not part of this model.
- Console messages other than the health monitor's three reports leave no trace in the log. This covers the shutdown messages (lines 92 and 97), the respawn messages (244 and 246), the rolling restart's messages (287, 301 and 312) and the `gracefulDisconnect` message (1053).
- HealthMonitor.Monitor.constructor: the source reads `Date.now()` once per `createWorker` call at start-up (line 462). The model stamps every start-up record with the same `now`, as if the loop took no time.
- Lifecycle.Step: the lifecycle assumes one `server.listen()` per worker, so a second 'listening' event is rejected. Node emits 'listening' on every `listen()` call (line 944). The rolling restart's listener counts every such event (`Pool.OnListening`).
- Lifecycle: the phases are a value-level state machine. The source keeps them in a Node worker object, which is a foreign object. `isConnected()` and `isDead()` are predicates on the phase.

## Findings

| source | as written | input that shows it | evidently intended | confidence | as-written member | corrected member |
|---|---|---|---|---|---|---|
| Cluster-basics.js:478-491 | The exit listener deletes the record. The replacement's `createWorker` gives each new record `restartCount: 0`, so every unexpected exit sees count 0 and restarts with the 1000 ms delay. | One worker crashing six times in a row: all six exits return restart 1 of 5 after 1000 ms. | The count survives into the replacement: delays 1 s to 4 s, then the fifth crash is given up. | not executed | HealthMonitor.CrashLoop | HealthMonitor.CrashLoopCarried |
| Cluster-basics.js:307-316 | The listener compares `readyCount` with the current `workers.length`. An unexpected exit of an old worker during the restart appends its replacement to `workers`. | Two CPUs, restart (old [1, 2], new [3, 4]), old worker 1 crashes (`workers` = [3, 4, 5]), workers 3 and 4 listen: the count reaches 2, which is not 3, so worker 2 is never disconnected. | Compare with the number of workers the restart created. | not executed | RollingRestart.OldWorkerCrashDuringRestart | RollingRestart.OldWorkerCrashDuringRestartFixed |
