/**
 * taskService of internal/service/task.go: the store, the registry of stop
 * channels of the runs still in flight, and the lifecycle run itself.
 *
 * Each method is one atomic step. CreateTask does not run the lifecycle: the
 * goroutine it spawns is ProcessTask, which a scheduler calls at some later
 * point with the events that run observes.
 */
module Service {
  import opened Wrappers
  import opened Models
  import opened Text
  import opened Storage
  import opened Lifecycle

  /** The service's errors, each wrapping the store error it came from where there is one. */
  datatype ServiceError =
    | EmptyDescription
    | CreateFailed(cause: StoreError)
    | GetFailed(cause: StoreError)
    | DeleteMissing(cause: StoreError)

  /** A `chan struct{}` that is only ever closed: open or closed. */
  class StopSignal {
    var closed: bool

    constructor ()
      ensures !closed
    {
      closed := false;
    }

    /** close(ch); closing a closed channel panics in Go, so it must be open. */
    method Close()
      requires !closed
      modifies this
      ensures closed
    {
      closed := true;
    }
  }

  class TaskService {
    const store: TaskStore
    /** runningTasks: the stop channel of each run that has not yet exited or been deleted. */
    var running: map<string, StopSignal>

    /**
     * The store is valid; only stored tasks have registered runs; every
     * registered channel is still open and belongs to one id only, so the
     * close in DeleteTask never meets a closed channel.
     */
    ghost predicate Valid()
      reads this, store, running.Values
    {
      && store.Valid()
      && running.Keys <= store.tasks.Keys
      && (forall id :: id in running ==> !running[id].closed)
      && (forall a, b :: a in running && b in running && a != b ==> running[a] != running[b])
    }

    /** NewTaskService: wraps a store, with no runs registered. */
    constructor (store: TaskStore)
      requires store.Valid()
      ensures Valid() && this.store == store && running == map[]
    {
      this.store := store;
      running := map[];
    }

    /**
     * CreateTask, with the id that uuid.New() would produce and the clock
     * reading as inputs. A blank description is refused and a store failure
     * is passed on, both without changing anything; otherwise the new pending
     * task is stored under its id and a fresh open stop channel is registered.
     */
    method CreateTask(description: string, id: string, now: int) returns (r: Result<Task, ServiceError>)
      requires Valid()
      modifies this, store
      ensures Valid()
      ensures Blank(description) ==>
        r == Failure(EmptyDescription) && store.tasks == old(store.tasks) && running == old(running)
      ensures !Blank(description) && id in old(store.tasks) ==>
        r == Failure(CreateFailed(AlreadyExists(id))) && store.tasks == old(store.tasks) && running == old(running)
      ensures !Blank(description) && id !in old(store.tasks) ==>
        && r.Success? && fresh(r.value)
        && r.value.State() == NewState(id, description, now)
        && store.tasks == old(store.tasks)[id := r.value]
        && id !in old(running) && id in running && fresh(running[id]) && !running[id].closed
        && running == old(running)[id := running[id]]
    {
      if TrimsToEmpty(description) {
        return Failure(EmptyDescription);
      }
      var task := new Task(id, description, now);
      assert task.State() == NewState(id, description, now);
      var created := store.Create(task);
      if created.Fail? {
        return Failure(CreateFailed(created.error));
      }
      assert store.tasks == old(store.tasks)[id := task];
      assert Valid();
      Register(task.id);
      return Success(task);
    }

    /** Lines 46-49 of CreateTask: a new open stop channel registered for a stored id that has none. */
    method Register(id: string)
      requires Valid() && id in store.tasks && id !in running
      modifies this
      ensures Valid()
      ensures id in running && fresh(running[id]) && !running[id].closed
      ensures running == old(running)[id := running[id]]
    {
      var stop := new StopSignal();
      running := running[id := stop];
    }

    /** GetTask: the stored object, or the store's "not found" wrapped. */
    method GetTask(id: string) returns (r: Result<Task, ServiceError>)
      ensures r.Success? <==> id in store.tasks
      ensures r.Success? ==> r.value == store.tasks[id]
      ensures r.Failure? ==> r.error == GetFailed(NotFound(id))
    {
      var got := store.GetByID(id);
      if got.Failure? {
        return Failure(GetFailed(got.error));
      }
      return Success(got.value);
    }

    /**
     * DeleteTask: an unknown id is refused with nothing changed. Otherwise
     * the run's channel, if one is registered, is closed and unregistered,
     * and then the task leaves the store.
     */
    method DeleteTask(id: string) returns (r: Outcome<ServiceError>)
      requires Valid()
      modifies this, store, running.Values
      ensures Valid()
      ensures id !in old(store.tasks) ==>
        && r == Fail(DeleteMissing(NotFound(id)))
        && store.tasks == old(store.tasks) && running == old(running)
        && unchanged(old(running.Values))
      ensures id in old(store.tasks) ==>
        && r == Pass
        && store.tasks == old(store.tasks) - {id}
        && running == old(running) - {id}
        && (id in old(running) ==> old(running)[id].closed)
    {
      var got := store.GetByID(id);
      if got.Failure? {
        return Fail(DeleteMissing(got.error));
      }
      if id in running {
        running[id].Close();
        running := running - {id};
      }
      // The store delete at task.go:78 cannot fail: the task was found above
      // and nothing runs between the two calls in this model.
      var deleted := store.Delete(id);
      assert deleted.Pass?;
      return Pass;
    }

    /** ListTasks: every stored task exactly once, in no particular order. */
    method ListTasks() returns (r: seq<Task>)
      requires Valid()
      ensures |r| == |store.tasks|
      ensures forall i :: 0 <= i < |r| ==> r[i].id in store.tasks && store.tasks[r[i].id] == r[i]
      ensures forall i, j :: 0 <= i < j < |r| ==> r[i].id != r[j].id
      ensures IdsOf(r) == store.tasks.Keys
    {
      r := store.List();
    }

    /**
     * processTask for taskID. `now` is the clock reading at Start and at the
     * start of the loop, `pick` the value of rand.Int63n, and `events` what
     * the select statement receives in order.
     *
     * The store map never changes: the task is updated in place through the
     * pointer the store holds, and every Update writes that same pointer back.
     * A missing task changes nothing but the registry. Otherwise the stored
     * task ends in the state Run describes; it is completed only after the
     * run length and cancelled only with "Task was cancelled". The run's
     * registry entry goes on every path that returns; if no event ends the
     * loop, the goroutine is still waiting and the entry stays.
     */
    method ProcessTask(taskID: string, now: int, pick: int, events: seq<Event>, message: int -> string)
      requires Valid()
      requires 0 <= pick < MaxRun - MinRun
      requires Schedule(events, now, RunLength(pick))
      modifies this, store, store.Footprint(taskID)
      ensures Valid()
      ensures store.tasks == old(store.tasks)
      ensures forall id :: id in store.tasks && id != taskID ==> store.tasks[id].State() == old(store.tasks[id].State())
      ensures taskID !in store.tasks ==> running == old(running) - {taskID}
      ensures taskID in store.tasks ==>
        var t := store.tasks[taskID].State();
        && t == Run(AfterStart(old(store.tasks[taskID].State()), now), events, now, RunLength(pick), message)
        && running == (if Exits(events, now, RunLength(pick)) then old(running) - {taskID} else old(running))
        && t.status in {Running, Completed, Cancelled}
        && (t.status == Completed ==> t.completedAt.Some? && t.completedAt.value - now >= RunLength(pick))
        && (t.status == Cancelled ==> t.error == CancelReason)
    {
      var got := store.GetByID(taskID);
      if got.Failure? {
        running := running - {taskID};
        return;
      }
      var task := got.value;
      var limit := RunLength(pick);
      var exited := StartAndWait(task, now, limit, events, message);
      if exited {
        running := running - {taskID};
      }
      RunOutcome(AfterStart(old(task.State()), now), events, now, now, limit, message);
    }

    /**
     * Lines 106-145 of processTask for the task found in the store: Start and
     * its Update, then the for/select loop. The task ends as Run of the
     * started task over the events, the store map is left as it was, and
     * exited says whether an event ended the loop.
     */
    method StartAndWait(task: Task, now: int, limit: int, events: seq<Event>, message: int -> string) returns (exited: bool)
      requires store.Valid() && task.id in store.tasks && store.tasks[task.id] == task
      modifies store, task
      ensures store.Valid() && store.tasks == old(store.tasks)
      ensures task.State() == Run(AfterStart(old(task.State()), now), events, now, limit, message)
      ensures exited == Exits(events, now, limit)
    {
      task.Start(now);
      // Update at task.go:107 cannot fail: the task is stored under its id.
      var updated := store.Update(task);
      assert updated.Pass?;
      exited := WaitLoop(task, now, limit, events, message);
    }

    /**
     * The for/select loop of processTask over the run's task: consumes events
     * until one ends the loop (then exited is true) or they run out. The task
     * ends in the state Run describes, and the store map is left as it was.
     */
    method WaitLoop(task: Task, start: int, limit: int, events: seq<Event>, message: int -> string) returns (exited: bool)
      requires store.Valid() && task.id in store.tasks && store.tasks[task.id] == task
      modifies store, task
      ensures store.Valid() && store.tasks == old(store.tasks)
      ensures task.State() == Run(old(task.State()), events, start, limit, message)
      ensures exited == Exits(events, start, limit)
    {
      ghost var initial := task.State();
      var i := 0;
      exited := false;
      while i < |events| && !exited
        invariant 0 <= i <= |events|
        invariant store.Valid() && store.tasks == old(store.tasks)
        invariant !exited ==> Run(task.State(), events[i..], start, limit, message) == Run(initial, events, start, limit, message)
        invariant !exited ==> (Exits(events, start, limit) <==> Exits(events[i..], start, limit))
        invariant exited ==> task.State() == Run(initial, events, start, limit, message)
        invariant exited ==> Exits(events, start, limit)
        decreases |events| - i
      {
        assert events[i..][1..] == events[i + 1..];
        exited := HandleEvent(task, events[i], start, limit, message);
        i := i + 1;
      }
    }

    /**
     * One pass through the select statement: a stop cancels the task, the
     * timer or a tick at or past the run length completes it (each followed
     * by an Update whose result is ignored), and an earlier tick only
     * refreshes the duration in memory.
     */
    method HandleEvent(task: Task, e: Event, start: int, limit: int, message: int -> string) returns (exited: bool)
      requires store.Valid() && task.id in store.tasks && store.tasks[task.id] == task
      modifies store, task
      ensures store.Valid() && store.tasks == old(store.tasks)
      ensures exited == Ends(e, start, limit)
      ensures exited ==> task.State() == Run(old(task.State()), [e], start, limit, message)
      ensures !exited ==> task.State() == Refresh(old(task.State()), e.at)
    {
      match e {
        case Stop(at) =>
          task.Cancel(CancelReason, at);
          var _ := store.Update(task);
          exited := true;
        case Tick(at) =>
          if at - start >= limit {
            task.Complete(message(at - start), at);
            var _ := store.Update(task);
            exited := true;
          } else {
            if task.startedAt.Some? {
              task.duration := WholeSeconds(at - task.startedAt.value);
            }
            exited := false;
          }
        case Deadline(at) =>
          task.Complete(message(at - start), at);
          var _ := store.Update(task);
          exited := true;
      }
    }
  }

  /**
   * TestCreateTask, TestGetTask and TestDeleteTask of the handler tests
   * combined through the service: the new task reads back pending, the
   * delete succeeds, and afterwards the id is neither stored nor registered
   * and the lookup fails with "not found".
   */
  method CreateReadDelete(svc: TaskService, id: string, now: int)
      returns (read: Result<Task, ServiceError>, deleted: Outcome<ServiceError>, after: Result<Task, ServiceError>)
    requires svc.Valid() && id !in svc.store.tasks
    modifies svc, svc.store, svc.running.Values
    ensures svc.Valid()
    ensures read.Success? && read.value.id == id && read.value.status == Pending
    ensures deleted == Pass
    ensures after == Failure(GetFailed(NotFound(id)))
    ensures id !in svc.store.tasks && id !in svc.running
  {
    assert !IsSpace("Test task"[0]);
    var created := svc.CreateTask("Test task", id, now);
    read := svc.GetTask(id);
    deleted := svc.DeleteTask(id);
    after := svc.GetTask(id);
  }
}
