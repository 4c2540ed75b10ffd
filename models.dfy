/**
 * The task entity of internal/models/task.go: its status enumeration, the
 * mutable Task record with its four mutators, and a value-level view of the
 * record that the lemmas reason about.
 *
 * Timestamps are integer nanoseconds supplied by the caller instead of
 * time.Now(); the task id is supplied by the caller instead of uuid.New().
 */
module Models {
  import opened Wrappers

  /** Nanoseconds per second. */
  const Second: int := 1_000_000_000

  datatype TaskStatus = Pending | Running | Completed | Failed | Cancelled {
    predicate IsTerminal() {
      this == Completed || this == Failed || this == Cancelled
    }
  }

  /** The field values of a Task at one instant. */
  datatype TaskState = TaskState(
    id: string,
    description: string,
    status: TaskStatus,
    createdAt: int,
    startedAt: Option<int>,
    completedAt: Option<int>,
    duration: int,
    result: string,
    error: string)

  /**
   * Go's int64(d.Seconds()) for a duration of ns nanoseconds: the whole
   * number of seconds, truncated toward zero (not Dafny's Euclidean division).
   */
  function WholeSeconds(ns: int): (r: int)
    ensures ns >= 0 ==> 0 <= r && r * Second <= ns < (r + 1) * Second
    ensures ns < 0 ==> r <= 0 && -r * Second <= -ns < (-r + 1) * Second
  {
    if ns >= 0 then ns / Second else -((-ns) / Second)
  }

  /** The state NewTask builds. */
  function NewState(id: string, description: string, now: int): TaskState {
    TaskState(id, description, Pending, now, None, None, 0, "", "")
  }

  /** The duration a terminal mutator stores: recomputed only when the task has started. */
  function DurationAt(t: TaskState, now: int): int {
    if t.startedAt.Some? then WholeSeconds(now - t.startedAt.value) else t.duration
  }

  function AfterStart(t: TaskState, now: int): TaskState {
    t.(status := Running, startedAt := Some(now))
  }

  function AfterComplete(t: TaskState, result: string, now: int): TaskState {
    t.(status := Completed, completedAt := Some(now), result := result, duration := DurationAt(t, now))
  }

  function AfterFail(t: TaskState, err: string, now: int): TaskState {
    t.(status := Failed, completedAt := Some(now), error := err, duration := DurationAt(t, now))
  }

  function AfterCancel(t: TaskState, reason: string, now: int): TaskState {
    t.(status := Cancelled, completedAt := Some(now), error := reason, duration := DurationAt(t, now))
  }

  /**
   * The Task record. ID, Description and CreatedAt are never assigned after
   * NewTask, so they are constants here; the other fields are updated in place
   * through the pointer that the store and the lifecycle run share.
   */
  class Task {
    const id: string
    const description: string
    const createdAt: int
    var status: TaskStatus
    var startedAt: Option<int>
    var completedAt: Option<int>
    var duration: int
    var result: string
    var error: string

    function State(): TaskState
      reads this
    {
      TaskState(id, description, status, createdAt, startedAt, completedAt, duration, result, error)
    }

    /** NewTask: a pending task with no timestamps but CreatedAt, duration 0 and empty result and error. */
    constructor (id: string, description: string, now: int)
      ensures status == Pending && startedAt == None && completedAt == None
      ensures duration == 0 && result == "" && error == ""
      ensures this.id == id && this.description == description && createdAt == now
      ensures State() == NewState(id, description, now)
    {
      this.id := id;
      this.description := description;
      createdAt := now;
      status := Pending;
      startedAt := None;
      completedAt := None;
      duration := 0;
      result := "";
      error := "";
    }

    /** Start: running since now; no check of the current status. */
    method Start(now: int)
      modifies this
      ensures status == Running && startedAt == Some(now)
      ensures completedAt == old(completedAt) && duration == old(duration)
      ensures result == old(result) && error == old(error)
      ensures State() == AfterStart(old(State()), now)
    {
      status := Running;
      startedAt := Some(now);
    }

    /** Complete: completed at now with the given result; Error is left as it was. */
    method Complete(res: string, now: int)
      modifies this
      ensures status == Completed && completedAt == Some(now) && result == res
      ensures error == old(error) && startedAt == old(startedAt)
      ensures old(startedAt).Some? ==> duration == WholeSeconds(now - old(startedAt).value)
      ensures old(startedAt).None? ==> duration == old(duration)
      ensures State() == AfterComplete(old(State()), res, now)
    {
      status := Completed;
      completedAt := Some(now);
      result := res;
      if startedAt.Some? {
        duration := WholeSeconds(now - startedAt.value);
      }
    }

    /** Fail: failed at now with the given error; Result is left as it was. */
    method Fail(err: string, now: int)
      modifies this
      ensures status == Failed && completedAt == Some(now) && error == err
      ensures result == old(result) && startedAt == old(startedAt)
      ensures old(startedAt).Some? ==> duration == WholeSeconds(now - old(startedAt).value)
      ensures old(startedAt).None? ==> duration == old(duration)
      ensures State() == AfterFail(old(State()), err, now)
    {
      status := Failed;
      completedAt := Some(now);
      error := err;
      if startedAt.Some? {
        duration := WholeSeconds(now - startedAt.value);
      }
    }

    /** Cancel: cancelled at now with the given reason as Error; Result is left as it was. */
    method Cancel(reason: string, now: int)
      modifies this
      ensures status == Cancelled && completedAt == Some(now) && error == reason
      ensures result == old(result) && startedAt == old(startedAt)
      ensures old(startedAt).Some? ==> duration == WholeSeconds(now - old(startedAt).value)
      ensures old(startedAt).None? ==> duration == old(duration)
      ensures State() == AfterCancel(old(State()), reason, now)
    {
      status := Cancelled;
      completedAt := Some(now);
      error := reason;
      if startedAt.Some? {
        duration := WholeSeconds(now - startedAt.value);
      }
    }
  }

  /**
   * The record invariant that the lifecycle (NewTask, then Start, then one
   * terminal mutator) keeps: timestamps are set exactly when the status says
   * so, the duration is the whole seconds between them, and the terminal
   * status decides which of Result and Error is set.
   */
  predicate Consistent(t: TaskState) {
    match t.status
    case Pending =>
      t.startedAt.None? && t.completedAt.None? && t.duration == 0 && t.result == "" && t.error == ""
    case Running =>
      t.startedAt.Some? && t.completedAt.None? && t.duration >= 0 && t.result == "" && t.error == ""
    case Completed =>
      Finished(t) && t.error == ""
    case Failed =>
      Finished(t) && t.result == "" && t.error != ""
    case Cancelled =>
      Finished(t) && t.result == "" && t.error != ""
  }

  /** Both timestamps are set, in order, and the duration is the whole seconds between them. */
  predicate Finished(t: TaskState) {
    && t.startedAt.Some? && t.completedAt.Some?
    && t.startedAt.value <= t.completedAt.value
    && t.duration == WholeSeconds(t.completedAt.value - t.startedAt.value)
    && t.duration >= 0
  }

  lemma NewTaskConsistent(id: string, description: string, now: int)
    ensures NewState(id, description, now).status == Pending
    ensures Consistent(NewState(id, description, now))
  {
  }

  lemma StartKeepsConsistent(t: TaskState, now: int)
    requires Consistent(t) && t.status == Pending
    ensures Consistent(AfterStart(t, now))
  {
  }

  lemma CompleteKeepsConsistent(t: TaskState, result: string, now: int)
    requires Consistent(t) && t.status == Running && t.startedAt.value <= now
    ensures Consistent(AfterComplete(t, result, now))
  {
  }

  lemma FailKeepsConsistent(t: TaskState, err: string, now: int)
    requires Consistent(t) && t.status == Running && t.startedAt.value <= now && err != ""
    ensures Consistent(AfterFail(t, err, now))
  {
  }

  lemma CancelKeepsConsistent(t: TaskState, reason: string, now: int)
    requires Consistent(t) && t.status == Running && t.startedAt.value <= now && reason != ""
    ensures Consistent(AfterCancel(t, reason, now))
  {
  }

  /**
   * Start does not look at the current status: applied to a finished task it
   * makes it running again while CompletedAt stays set, which breaks the
   * record invariant. Forward-only order comes from the caller alone.
   */
  lemma StartIsUnguarded(t: TaskState, now: int)
    requires Consistent(t) && t.status.IsTerminal()
    ensures AfterStart(t, now).status == Running
    ensures AfterStart(t, now).completedAt == t.completedAt
    ensures !Consistent(AfterStart(t, now))
  {
  }

  /**
   * Start at t0 followed by any terminal mutator at t1 >= t0: StartedAt is
   * not after CompletedAt and the duration is the non-negative whole seconds
   * from t0 to t1.
   */
  lemma StartThenFinishOrdered(t: TaskState, msg: string, t0: int, t1: int)
    requires t0 <= t1
    ensures var c := AfterComplete(AfterStart(t, t0), msg, t1);
      c.startedAt == Some(t0) && c.completedAt == Some(t1) && c.duration == WholeSeconds(t1 - t0) >= 0
    ensures var f := AfterFail(AfterStart(t, t0), msg, t1);
      f.startedAt == Some(t0) && f.completedAt == Some(t1) && f.duration == WholeSeconds(t1 - t0) >= 0
    ensures var x := AfterCancel(AfterStart(t, t0), msg, t1);
      x.startedAt == Some(t0) && x.completedAt == Some(t1) && x.duration == WholeSeconds(t1 - t0) >= 0
  {
  }
}
