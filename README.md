# Task manager lifecycle: a Dafny model

This project models the core of a small Go service that runs simulated
background tasks. It covers three parts:

- the `Task` record and its mutators (`internal/models/task.go`);
- the in-memory task store (`internal/storage/memory.go`);
- the task service (`internal/service/task.go`). The service validates and
  creates tasks, keeps a registry of stop channels for the runs still in
  flight, deletes tasks, and drives each task's lifecycle run (`processTask`):
  pending, then running, then completed or cancelled.

Layout, one module per Go package, plus two helper modules:

- `wrappers.dfy`: `Option`, `Result` and `Outcome`.
- `models.dfy`:
  - `TaskStatus` and the `Task` class. Its `id`, `description` and `createdAt`
    are `const`, because no code assigns them after `NewTask`. So the fact
    that no mutator changes them holds by construction.
  - `TaskState`, a value snapshot of a task.
  - The pure transition functions that the mutators are proved against.
  - The record invariant `Consistent` and the lemmas about it.
- `text.dfy`: Go's `strings.TrimSpace` and `unicode.IsSpace`. CreateTask uses
  them to reject blank descriptions.
- `storage.dfy`: the `TaskStore` class. It holds a `map<string, Task>` of
  object references, as the Go map holds `*Task`. `GetByID` returns the stored
  object itself, so a change made through that reference shows in the store
  without an `Update`.
- `lifecycle.dfy`: the pure meaning of the `for`/`select` loop.
  - `Run` folds a sequence of events (`Stop`, `Tick`, `Deadline`, each with
    its clock reading) over a task snapshot.
  - `Schedule` states what the Go runtime guarantees about those events:
    clock readings never go back, and the timer armed by `time.After`, which
    is re-armed on every pass through the loop, fires only after the full run
    length.
  - The lemmas say how a run can end.
- `service.dfy`: the `TaskService` class, holding the store and
  `running: map<string, StopSignal>`; the `StopSignal` class (a channel that
  can only be closed); and `ProcessTask`, proved against `Run`.

Inputs that stand in for the environment:

- Times are integer nanoseconds.
- `time.Now()`, `uuid.New()` and `rand.Int63n` become parameters.
- The select statement's choices become the event sequence.
- The success message's text becomes a caller-supplied function `message` of
  the elapsed time.
- `Duration` is `int64(d.Seconds())`. `WholeSeconds` models it as integer
  division truncated toward zero.

Facts about the code that the model keeps:

- `Start` has no status guard: on a finished task it makes it running again
  (`StartIsUnguarded`). The forward order comes only from `processTask`
  calling the mutators in sequence.
- When the timer and a tick are both ready, `select` picks either one. The
  model lets the event sequence choose.
- `List` always returns a nil error, so the error branch of `ListTasks`
  (internal/service/task.go:86-89) is dead and `ListTasks` returns the list
  alone.
- The final `Update` calls in the loop ignore their errors.

## Model

| member | source | states |
|---|---|---|
| Models.WholeSeconds | internal/models/task.go:53 | the stored duration is the whole seconds of a nanosecond difference, truncated toward zero: non-negative and within one second below it for a non-negative difference, symmetric for a negative one |
| Models.Task.constructor | internal/models/task.go:31-39 | NewTask: status pending, no StartedAt or CompletedAt, duration 0, empty Result and Error, the given id, description and creation time |
| Models.Task.Start | internal/models/task.go:41-45 | status becomes running and StartedAt is now; no other field changes and the current status is not checked |
| Models.Task.Complete | internal/models/task.go:47-55 | status completed, CompletedAt now, Result set, Error and StartedAt unchanged; duration recomputed from StartedAt when set, otherwise unchanged |
| Models.Task.Fail | internal/models/task.go:57-65 | status failed, CompletedAt now, Error set, Result and StartedAt unchanged; duration recomputed from StartedAt when set, otherwise unchanged |
| Models.Task.Cancel | internal/models/task.go:67-75 | status cancelled, CompletedAt now, Error set to the reason, Result and StartedAt unchanged; duration recomputed from StartedAt when set, otherwise unchanged |
| Models.NewTaskConsistent | internal/models/task.go:31-39 | a new task is pending and satisfies the record invariant |
| Models.StartKeepsConsistent | internal/models/task.go:41-45 | starting a pending task keeps the record invariant |
| Models.CompleteKeepsConsistent | internal/models/task.go:47-55 | completing a running task no earlier than its start keeps the record invariant |
| Models.FailKeepsConsistent | internal/models/task.go:57-65 | failing a running task with a non-empty error, no earlier than its start, keeps the record invariant |
| Models.CancelKeepsConsistent | internal/models/task.go:67-75 | cancelling a running task with a non-empty reason, no earlier than its start, keeps the record invariant |
| Models.StartIsUnguarded | internal/models/task.go:41-45 | Start on a finished task makes it running again with CompletedAt still set, which breaks the record invariant: the mutator has no status guard |
| Models.StartThenFinishOrdered | internal/models/task.go:41-75 | Start at t0, then Complete, Fail or Cancel at t1 >= t0, gives StartedAt t0 <= CompletedAt t1 and a duration equal to the non-negative whole seconds from t0 to t1 |
| Text.TrimLeft | internal/service/task.go:36 | the result is a suffix of the input, preceded only by white space, and does not start with white space |
| Text.IsSpace | internal/service/task.go:36 | `unicode.IsSpace`: on ASCII exactly tab, newline, vertical tab, form feed, carriage return and space; no white-space character lies above U+3000 |
| Text.TrimRight | internal/service/task.go:36 | the result is a prefix of the input, followed only by white space, and does not end with white space |
| Text.TrimSpace | internal/service/task.go:36 | the result is a contiguous slice of the input with only white space cut off at either end, and neither starts nor ends with white space |
| Text.TrimSpaceEmptyIffBlank | internal/service/task.go:36-38 | TrimSpace gives the empty string exactly when every character of the input is white space |
| Text.TrimsToEmpty | internal/service/task.go:36 | the test `strings.TrimSpace(description) == ""` holds exactly when every character of the description is white space |
| Storage.TaskStore.constructor | internal/storage/memory.go:23-27 | a new store is empty |
| Storage.TaskStore.Create | internal/storage/memory.go:29-39 | a present id gives "already exists" and no change; a fresh id adds exactly that entry and touches no other |
| Storage.TaskStore.GetByID | internal/storage/memory.go:41-51 | succeeds exactly when the id is present and then returns the stored object itself; otherwise "not found"; changes nothing |
| Storage.TaskStore.Update | internal/storage/memory.go:53-63 | an absent id gives "not found" and no change; a present id replaces exactly that entry |
| Storage.TaskStore.Delete | internal/storage/memory.go:65-75 | an absent id gives "not found" and no change; a present id removes exactly that key |
| Storage.EnumerateStep | internal/storage/memory.go:81-84 | one pass of the append loop in List: adding the task filed under one more unlisted id keeps the list an exact, repetition-free enumeration of the entries listed so far |
| Storage.TaskStore.List | internal/storage/memory.go:77-87 | one element per stored key, each the object stored under its id, no id twice and every stored id present; order unspecified |
| Service.StopSignal.Close | internal/service/task.go:73 | closing requires an open channel (Go panics on a double close) and leaves it closed |
| Service.StopSignal.constructor | internal/service/task.go:46 | `make(chan struct{})`: a new channel is open |
| Service.TaskService.constructor | internal/service/task.go:28-33 | a new service wraps the given store with an empty registry |
| Service.TaskService.CreateTask | internal/service/task.go:35-54 | a blank description is refused, and so is an id the store already holds, both with store and registry unchanged; otherwise a fresh pending task is stored under its id and a fresh open stop channel is registered for it; the registry invariant is kept |
| Service.TaskService.Register | internal/service/task.go:46-49 | a fresh open stop channel is registered for a stored id that had none; every other registry entry is kept and the registry invariant holds |
| Service.TaskService.GetTask | internal/service/task.go:56-63 | the stored object exactly when the id is present; otherwise the wrapped "not found" |
| Service.TaskService.DeleteTask | internal/service/task.go:65-83 | an unknown id is refused with store, registry and channels unchanged; otherwise the registered channel, if any, is closed, the id leaves the registry and then the store, and nothing else is removed |
| Service.TaskService.ListTasks | internal/service/task.go:85-92 | every stored task exactly once, in no particular order |
| Service.TaskService.ProcessTask | internal/service/task.go:94-146 | the store map never changes and no other task changes; a missing task only loses its registry entry; otherwise the stored task ends as Run of the started task over the events, only as running, completed after at least the run length, or cancelled with "Task was cancelled"; the registry entry goes exactly when the loop returns |
| Service.TaskService.StartAndWait | internal/service/task.go:106-145 | Start, its Update and the loop leave the task as Run of the started task over the events, leave the store map as it was, and report whether an event ended the loop |
| Service.TaskService.WaitLoop | internal/service/task.go:120-145 | the loop leaves the task as Run over the events and the store map as it was, and reports whether an event ended the loop |
| Service.TaskService.HandleEvent | internal/service/task.go:121-144 | one pass through the select: an ending event applies Run's step for it; an earlier tick only refreshes the duration from StartedAt |
| Service.CreateReadDelete | internal/api/handlers_test.go:15-151 | the create, get and delete steps of the handler tests combined through the service: the new task reads back pending, the delete succeeds, and afterwards the id is neither stored nor registered and GetTask fails with "not found" |
| Lifecycle.RunLength | internal/service/task.go:111-113 | the chosen run length lies in [3 min, 5 min) when the random offset lies in [0, 2 min) |
| Lifecycle.Run | internal/service/task.go:120-145 | the meaning of the for/select loop over a sequence of events; the result keeps the id, description, CreatedAt and StartedAt, and its status is the input's, completed or cancelled |
| Lifecycle.Refresh | internal/service/task.go:135-137 | an early tick changes only the duration, and only when StartedAt is set; for a tick no earlier than StartedAt the new duration is non-negative |
| Lifecycle.RunOutcome | internal/service/task.go:120-145 | from a running task, a run ends neither pending nor failed. It keeps the id, description, CreatedAt and StartedAt. It stays running exactly when no event ends the loop, and then only the duration has moved. Cancelled means the error is "Task was cancelled" and the Result is kept. Completed means the Error is kept and completion came no earlier than the run length |
| Lifecycle.FirstEndingEventDecides | internal/service/task.go:122-143 | the first event that ends the loop decides the outcome: a stop cancels with "Task was cancelled"; the timer or a late tick completes with the message for the elapsed time; CompletedAt is that event's time |
| Lifecycle.RunKeepsConsistent | internal/service/task.go:120-145 | a run over events no earlier than StartedAt keeps the record invariant |
| Lifecycle.TicksPreemptDeadline | internal/service/task.go:115-139 | while ticks come at least every 10 s, the re-armed time.After timer of at least 3 min never fires |
| Lifecycle.Lifecycle | internal/service/task.go:106-145 | NewTask, then Start, then the loop ends in a state that satisfies the record invariant, with StartedAt set and status running, completed or cancelled |

## Left out

- HTTP routing, JSON encoding, middleware, status-code mapping (`internal/api/handlers.go`), configuration loading and server start-up and shutdown: transport and I/O around the core.
- The JSON shells `CreateTaskRequest`, `TaskResponse` and `ErrorResponse`: they carry no logic.
- Goroutines, `sync.RWMutex` and the `select` scheduler. Every method is one atomic step, so DeleteTask never runs in the middle of a lifecycle run. A `Stop` event stands for "the channel was closed" and is not tied to the registry's StopSignal. So in the model a run that takes `Stop` leaves a cancelled task stored and unregistered with its channel still open; in the code the channel is closed only by DeleteTask (internal/service/task.go:71-80), which deletes the task right after, so a cancelled task never stays stored and deletion is the only way a run is cancelled. The race where a run's last `Update` meets an already deleted task is not reachable.
- The `go` statement at internal/service/task.go:51: CreateTask does not run the lifecycle. `ProcessTask` is that run, called separately.
- The error branches at internal/service/task.go:78-80 and 107-109. In a sequential model they cannot fire, because the task was found just before; the model asserts this instead.
- The error result of `List`, which is always nil.
- Real time. `Start` and the loop's `startTime` read the clock once, as one instant `now`. Each event carries one clock reading, which the branch that handles it uses throughout. Tick spacing is left free, except in `TicksPreemptDeadline`.
- A run whose events run out without one ending the loop stays blocked, with the task running and its registry entry kept. Resuming it later is not modelled.
- Models.WholeSeconds: it does not model the floating-point `Seconds()` conversion. For runs longer than about 2^24 seconds (about 194 days), that conversion could round up by one second. It also does not model the saturation of `time.Time.Sub` at the limits of int64.
- The wording of the success message (`fmt.Sprintf` and `Duration.Round`). It comes from the `message` parameter.
- The uniqueness of uuids. The id is an input that is not assumed fresh, so CreateTask's "already exists" branch stays reachable.
- Invalid UTF-8 in descriptions. Strings are sequences of code points.
