/**
 * The value-level meaning of processTask's wait loop (internal/service/task.go):
 * which event the select statement takes next, and what it does to the task.
 *
 * The goroutine, the ticker, time.After and rand are replaced by inputs: the
 * run length is chosen from a random offset passed in, and the select
 * statement's choices arrive as a sequence of events, each stamped with the
 * clock reading used while handling it.
 */
module Lifecycle {
  import opened Wrappers
  import opened Models

  const Minute: int := 60 * Second
  /** The shortest and (exclusive) longest simulated run. */
  const MinRun: int := 3 * Minute
  const MaxRun: int := 5 * Minute
  /** The interval of the refresh ticker. */
  const TickPeriod: int := 10 * Second
  /** The Error text a cancelled run stores. */
  const CancelReason: string := "Task was cancelled"

  /**
   * The run length chosen once per run: three minutes plus rand.Int63n of the
   * two-minute span, whose value lies in [0, span).
   */
  function RunLength(pick: int): (d: int)
    requires 0 <= pick < MaxRun - MinRun
    ensures MinRun <= d < MaxRun
  {
    MinRun + pick
  }

  /** What the select statement receives: the stop channel closed, a tick, or the time.After timer. */
  datatype Event = Stop(at: int) | Tick(at: int) | Deadline(at: int)

  /**
   * The events a real run can see after a select that began at `from`: clock
   * readings never go back, and because time.After(limit) is created anew
   * each time round the loop, its timer fires only once `limit` has passed
   * since the start of that select.
   */
  ghost predicate Schedule(events: seq<Event>, from: int, limit: int)
    decreases |events|
  {
    || events == []
    || (&& from <= events[0].at
        && (events[0].Deadline? ==> events[0].at - from >= limit)
        && Schedule(events[1..], events[0].at, limit))
  }

  /** Ticks arrive at least every TickPeriod, measured from `from`. */
  ghost predicate Dense(events: seq<Event>, from: int)
    decreases |events|
  {
    events == [] || (events[0].at - from <= TickPeriod && Dense(events[1..], events[0].at))
  }

  /** The event makes the loop return: a stop, the timer, or a tick at or past the run length. */
  predicate Ends(e: Event, start: int, limit: int) {
    e.Stop? || e.Deadline? || e.at - start >= limit
  }

  /** Some event in the sequence makes the loop return. */
  ghost predicate Exits(events: seq<Event>, start: int, limit: int)
    decreases |events|
  {
    events != [] && (Ends(events[0], start, limit) || Exits(events[1..], start, limit))
  }

  /** A tick below the run length only refreshes the duration, from StartedAt. */
  function Refresh(t: TaskState, at: int): (r: TaskState)
    ensures r.(duration := t.duration) == t
    ensures t.startedAt.None? ==> r == t
    ensures t.startedAt.Some? && t.startedAt.value <= at ==> r.duration >= 0
  {
    if t.startedAt.Some? then t.(duration := WholeSeconds(at - t.startedAt.value)) else t
  }

  /**
   * The task after the loop has consumed `events`, for a run whose loop
   * began at `start` with run length `limit`. `message` renders the success
   * text from the elapsed time. When no event ends the loop, the result is
   * the task as the still-waiting goroutine holds it.
   */
  function Run(t: TaskState, events: seq<Event>, start: int, limit: int, message: int -> string): (r: TaskState)
    ensures r.id == t.id && r.description == t.description && r.createdAt == t.createdAt
    ensures r.startedAt == t.startedAt
    ensures r.status == t.status || r.status == Completed || r.status == Cancelled
    decreases |events|
  {
    if events == [] then t
    else
      match events[0]
      case Stop(at) => AfterCancel(t, CancelReason, at)
      case Deadline(at) => AfterComplete(t, message(at - start), at)
      case Tick(at) =>
        if at - start >= limit then AfterComplete(t, message(at - start), at)
        else Run(Refresh(t, at), events[1..], start, limit, message)
  }

  lemma SchedulePrefix(events: seq<Event>, from: int, limit: int)
    requires Schedule(events, from, limit) && events != []
    ensures from <= events[0].at && Schedule(events[1..], events[0].at, limit)
  {
  }

  /**
   * What a run can end in, starting from a running task: never pending or
   * failed; the identity, CreatedAt and StartedAt are kept; the loop returns
   * exactly when some event ends it; while it waits only the duration moves;
   * a cancelled task carries "Task was cancelled" and keeps its Result; a
   * completed task keeps its Error and finished no earlier than the run length.
   */
  lemma {:induction false} RunOutcome(t: TaskState, events: seq<Event>, from: int, start: int, limit: int, message: int -> string)
    requires t.status == Running
    requires Schedule(events, from, limit) && start <= from
    ensures var r := Run(t, events, start, limit, message);
      && r.status != Pending && r.status != Failed
      && r.id == t.id && r.description == t.description && r.createdAt == t.createdAt
      && r.startedAt == t.startedAt
      && (r.status == Running <==> !Exits(events, start, limit))
      && (r.status == Running ==> r == t.(duration := r.duration))
      && (r.status == Cancelled ==> r.error == CancelReason && r.result == t.result)
      && (r.status == Completed ==> r.error == t.error && r.completedAt.Some? && r.completedAt.value - start >= limit)
    decreases |events|
  {
    if events != [] {
      SchedulePrefix(events, from, limit);
      var e := events[0];
      if e.Tick? && e.at - start < limit {
        RunOutcome(Refresh(t, e.at), events[1..], e.at, start, limit, message);
      }
    }
  }

  /**
   * The first event that ends the loop decides the outcome: a stop cancels
   * the task with "Task was cancelled", the timer or a late tick completes it
   * with the message for the elapsed time, and CompletedAt is that event's time.
   */
  lemma {:induction false} FirstEndingEventDecides(t: TaskState, events: seq<Event>, k: nat, start: int, limit: int, message: int -> string)
    requires k < |events| && Ends(events[k], start, limit)
    requires forall i :: 0 <= i < k ==> !Ends(events[i], start, limit)
    ensures var r := Run(t, events, start, limit, message);
      && r.completedAt == Some(events[k].at)
      && (events[k].Stop? ==> r.status == Cancelled && r.error == CancelReason)
      && (!events[k].Stop? ==> r.status == Completed && r.result == message(events[k].at - start))
    decreases k
  {
    if k > 0 {
      assert !Ends(events[0], start, limit);
      FirstEndingEventDecides(Refresh(t, events[0].at), events[1..], k - 1, start, limit, message);
    }
  }

  /**
   * A run keeps the record invariant, provided the events come no earlier
   * than StartedAt.
   */
  lemma {:induction false} RunKeepsConsistent(t: TaskState, events: seq<Event>, from: int, start: int, limit: int, message: int -> string)
    requires Consistent(t) && t.status == Running && t.startedAt.value <= from
    requires Schedule(events, from, limit)
    ensures Consistent(Run(t, events, start, limit, message))
    decreases |events|
  {
    if events != [] {
      SchedulePrefix(events, from, limit);
      var e := events[0];
      match e
      case Stop(at) => CancelKeepsConsistent(t, CancelReason, at);
      case Deadline(at) => CompleteKeepsConsistent(t, message(at - start), at);
      case Tick(at) =>
        if at - start >= limit {
          CompleteKeepsConsistent(t, message(at - start), at);
        } else {
          RunKeepsConsistent(Refresh(t, at), events[1..], at, start, limit, message);
        }
    }
  }

  /**
   * While ticks keep arriving every ten seconds, the re-armed time.After
   * timer (three minutes at least) never fires: completion comes from the
   * tick branch.
   */
  lemma {:induction false} TicksPreemptDeadline(events: seq<Event>, from: int, limit: int)
    requires Schedule(events, from, limit) && Dense(events, from) && limit >= MinRun
    ensures forall i :: 0 <= i < |events| ==> !events[i].Deadline?
    decreases |events|
  {
    if events != [] {
      TicksPreemptDeadline(events[1..], events[0].at, limit);
      forall i | 0 <= i < |events| ensures !events[i].Deadline? {
        if i > 0 {
          assert events[i] == events[1..][i - 1];
        }
      }
    }
  }

  /**
   * The whole life of one task: NewTask, then Start at `now`, then the loop
   * over a schedule that begins at `now`. The record invariant holds at the
   * end, and the status is pending never and failed never.
   */
  lemma Lifecycle(id: string, description: string, created: int, now: int, pick: int, events: seq<Event>, message: int -> string)
    requires 0 <= pick < MaxRun - MinRun
    requires Schedule(events, now, RunLength(pick))
    ensures var r := Run(AfterStart(NewState(id, description, created), now), events, now, RunLength(pick), message);
      && Consistent(r) && r.status in {Running, Completed, Cancelled}
      && r.startedAt == Some(now)
  {
    var s := AfterStart(NewState(id, description, created), now);
    StartKeepsConsistent(NewState(id, description, created), now);
    RunKeepsConsistent(s, events, now, now, RunLength(pick), message);
    RunOutcome(s, events, now, now, RunLength(pick), message);
  }
}
