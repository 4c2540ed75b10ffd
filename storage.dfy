/**
 * InMemoryTaskStorage of internal/storage/memory.go: a map from task id to a
 * shared Task object. The read/write lock only makes each call atomic; every
 * method here is one sequential step.
 */
module Storage {
  import opened Wrappers
  import opened Models

  /** The two errors the store returns: "already exists" and "not found". */
  datatype StoreError = AlreadyExists(id: string) | NotFound(id: string)

  /** The ids of a list of tasks. */
  function IdsOf(ts: seq<Task>): set<string> {
    set i | 0 <= i < |ts| :: ts[i].id
  }

  lemma IdsOfAppend(ts: seq<Task>, t: Task)
    ensures IdsOf(ts + [t]) == IdsOf(ts) + {t.id}
  {
    var u := ts + [t];
    assert forall i :: 0 <= i < |ts| ==> u[i] == ts[i];
    assert u[|ts|] == t;
  }

  /**
   * r lists, each once and as the very object filed under its id, exactly the
   * entries of m whose ids are not in rest.
   */
  ghost predicate Enumerates(r: seq<Task>, m: map<string, Task>, rest: set<string>) {
    && (forall i :: 0 <= i < |r| ==> r[i].id in m && m[r[i].id] == r[i] && r[i].id !in rest)
    && (forall i, j :: 0 <= i < j < |r| ==> r[i].id != r[j].id)
    && IdsOf(r) == m.Keys - rest
  }

  /** Appending the entry of one more id of rest, filed under that id, keeps r an enumeration. */
  lemma EnumerateStep(r: seq<Task>, m: map<string, Task>, rest: set<string>, k: string)
    requires Enumerates(r, m, rest) && k in rest && k in m && m[k].id == k
    ensures Enumerates(r + [m[k]], m, rest - {k})
  {
    var u := r + [m[k]];
    IdsOfAppend(r, m[k]);
    assert forall i :: 0 <= i < |r| ==> u[i] == r[i];
    assert u[|r|] == m[k];
  }

  class TaskStore {
    /** Every entry holds a pointer; readers get the very object that is stored. */
    var tasks: map<string, Task>

    /** Each task is filed under its own id (so distinct keys hold distinct objects). */
    ghost predicate Valid()
      reads this
    {
      forall id :: id in tasks ==> tasks[id].id == id
    }

    /** The stored object for id, if any, as a set (for frame clauses). */
    function Footprint(id: string): set<Task>
      reads this
    {
      if id in tasks then {tasks[id]} else {}
    }

    /** NewInMemoryTaskStorage: an empty store. */
    constructor ()
      ensures Valid() && tasks == map[]
    {
      tasks := map[];
    }

    /** Create: refuses an id that is present, otherwise adds exactly that entry. */
    method Create(task: Task) returns (r: Outcome<StoreError>)
      requires Valid()
      modifies this
      ensures Valid()
      ensures task.id in old(tasks) ==> r == Fail(AlreadyExists(task.id)) && tasks == old(tasks)
      ensures task.id !in old(tasks) ==> r == Pass && tasks == old(tasks)[task.id := task]
    {
      if task.id in tasks {
        return Fail(AlreadyExists(task.id));
      }
      tasks := tasks[task.id := task];
      return Pass;
    }

    /** GetByID: the stored object itself when the id is present, "not found" otherwise. */
    method GetByID(id: string) returns (r: Result<Task, StoreError>)
      ensures r.Success? <==> id in tasks
      ensures r.Success? ==> r.value == tasks[id]
      ensures r.Failure? ==> r.error == NotFound(id)
    {
      if id !in tasks {
        return Failure(NotFound(id));
      }
      return Success(tasks[id]);
    }

    /** Update: refuses an absent id, otherwise replaces exactly that entry. */
    method Update(task: Task) returns (r: Outcome<StoreError>)
      requires Valid()
      modifies this
      ensures Valid()
      ensures task.id !in old(tasks) ==> r == Fail(NotFound(task.id)) && tasks == old(tasks)
      ensures task.id in old(tasks) ==> r == Pass && tasks == old(tasks)[task.id := task]
    {
      if task.id !in tasks {
        return Fail(NotFound(task.id));
      }
      tasks := tasks[task.id := task];
      return Pass;
    }

    /** Delete: refuses an absent id, otherwise removes exactly that key. */
    method Delete(id: string) returns (r: Outcome<StoreError>)
      requires Valid()
      modifies this
      ensures Valid()
      ensures id !in old(tasks) ==> r == Fail(NotFound(id)) && tasks == old(tasks)
      ensures id in old(tasks) ==> r == Pass && tasks == old(tasks) - {id}
    {
      if id !in tasks {
        return Fail(NotFound(id));
      }
      tasks := tasks - {id};
      return Pass;
    }

    /**
     * List: every stored task exactly once, in no particular order. The list
     * has one element per key, each element is the object stored under its
     * id, no id repeats, and every stored id occurs.
     */
    method List() returns (r: seq<Task>)
      requires Valid()
      ensures |r| == |tasks|
      ensures forall i :: 0 <= i < |r| ==> r[i].id in tasks && tasks[r[i].id] == r[i]
      ensures forall i, j :: 0 <= i < j < |r| ==> r[i].id != r[j].id
      ensures IdsOf(r) == tasks.Keys
    {
      r := [];
      var rest := tasks.Keys;
      while rest != {}
        invariant rest <= tasks.Keys
        invariant |r| + |rest| == |tasks|
        invariant Enumerates(r, tasks, rest)
        decreases rest
      {
        var k :| k in rest;
        EnumerateStep(r, tasks, rest, k);
        r := r + [tasks[k]];
        rest := rest - {k};
      }
    }
  }
}
