/** The collection logic of the HTTP adapter (main.py). Each handler loads the
    whole collection, works on it and, if it changed anything, saves it
    back; `stored` is what `load_tasks()` returned. Every handler is shown to
    agree with the corresponding `TaskManager` operation. */
module Api {
  import opened Wrappers
  import opened Tasks
  import TaskStore

  /** HTTP 404 with detail "Task not found". */
  datatype ApiError = NotFound

  /** The collection after the handler, whether it called `save_tasks`, and
      the response body or error. */
  datatype Response<T> = Response(stored: seq<Task>, saved: bool, body: Result<T, ApiError>)

  /** The bounds `Field(ge=1, le=5)` of `TaskCreate.priority`. */
  const MinPriority: int := 1
  const MaxPriority: int := 5

  /** `generate_id`: 1 for an empty list, else the largest id plus one; the
      same function as `TaskManager._generate_id`. */
  method GenerateId(tasks: seq<Task>) returns (id: TaskId)
    ensures |tasks| == 0 ==> id == 1
    ensures forall i :: 0 <= i < |tasks| ==> tasks[i].id < id
    ensures |tasks| > 0 ==> exists i :: 0 <= i < |tasks| && id == tasks[i].id + 1
    ensures id == TaskStore.GenerateId(tasks)
  {
    if |tasks| == 0 {
      return 1;
    }
    var maxId := tasks[0].id;
    var k := 1;
    while k < |tasks|
      invariant 1 <= k <= |tasks|
      invariant forall i :: 0 <= i < k ==> tasks[i].id <= maxId
      invariant exists i :: 0 <= i < k && tasks[i].id == maxId
    {
      if tasks[k].id > maxId {
        maxId := tasks[k].id;
      }
      k := k + 1;
    }
    id := maxId + 1;
    var other := TaskStore.GenerateId(tasks);
    var j :| 0 <= j < |tasks| && other == tasks[j].id + 1;
    assert other <= id;
  }

  /** `list_tasks`: the loaded collection, unfiltered and not saved; it is
      what `TaskManager.list_tasks()` with no filters returns. */
  function ListTasks(stored: seq<Task>): (r: Response<seq<Task>>)
    ensures r.stored == stored && !r.saved
    ensures forall clock :: r.body == Success(TaskStore.ListTasks(stored, Unfiltered, clock))
  {
    Response(stored, false, Success(stored))
  }

  /** `create_task`: appends one record with a fresh id and status "todo",
      saves, and returns it; the same collection `TaskManager.add_task`
      produces. The priority bound is enforced by request validation before
      the handler runs. */
  method CreateTask(stored: seq<Task>, title: string, description: string, priority: int,
                    due: Option<string>, tags: seq<string>, createdAt: string) returns (r: Response<Task>)
    requires MinPriority <= priority <= MaxPriority
    ensures r.saved && r.body.Success?
    ensures |r.stored| == |stored| + 1 && r.stored[..|stored|] == stored
    ensures r.body.value == r.stored[|stored|]
    ensures forall i :: 0 <= i < |stored| ==> stored[i].id < r.body.value.id
    ensures r.body.value.status == "todo" && r.body.value.tags == tags
    ensures MinPriority <= r.body.value.priority <= MaxPriority
    ensures r.stored == TaskStore.AddTask(stored, title, description, priority, due, Some(tags), createdAt).tasks
  {
    var id := GenerateId(stored);
    var task := Task(id, title, description, priority, due, tags, "todo", createdAt);
    var tasks := stored + [task];
    assert tasks[..|stored|] == stored;
    return Response(tasks, true, Success(task));
  }

  /** `get_task`: the first record with the id, or 404; never saves. */
  method GetTask(stored: seq<Task>, id: TaskId) returns (r: Response<Task>)
    ensures r.stored == stored && !r.saved
    ensures r.body.Failure? <==> !HasId(stored, id)
    ensures r.body.Failure? ==> r.body.error == NotFound
    ensures forall i :: 0 <= i < |stored| && IsFirstMatch(stored, id, i) ==> r.body == Success(stored[i])
    ensures match TaskStore.GetTask(stored, id)
            case None => r.body.Failure?
            case Some(t) => r.body == Success(t)
  {
    var i := 0;
    while i < |stored|
      invariant 0 <= i <= |stored|
      invariant forall j :: 0 <= j < i ==> stored[j].id != id
    {
      if stored[i].id == id {
        assert IsFirstMatch(stored, id, i);
        return Response(stored, false, Success(stored[i]));
      }
      i := i + 1;
    }
    return Response(stored, false, Failure(NotFound));
  }

  /** `update_status`: sets the status of the first record with the id and
      saves, or answers 404 and saves nothing; the same outcome as
      `TaskManager.update_status`. */
  method UpdateStatus(stored: seq<Task>, id: TaskId, status: string) returns (r: Response<Task>)
    ensures r.body.Failure? <==> !HasId(stored, id)
    ensures r.body.Failure? ==> r.body.error == NotFound && r.stored == stored && !r.saved
    ensures forall i :: 0 <= i < |stored| && IsFirstMatch(stored, id, i) ==>
      && r.saved
      && ChangedOnlyAt(stored, r.stored, i)
      && r.stored[i] == stored[i].(status := status)
      && r.body == Success(r.stored[i])
    ensures var o := TaskStore.UpdateStatus(stored, id, status);
      && r.stored == o.tasks && r.saved == o.saved
      && (r.body.Success? <==> o.found.Some?)
      && (r.body.Success? ==> r.body.value == o.found.value)
  {
    var i := 0;
    while i < |stored|
      invariant 0 <= i <= |stored|
      invariant forall j :: 0 <= j < i ==> stored[j].id != id
    {
      if stored[i].id == id {
        assert IsFirstMatch(stored, id, i);
        var task := stored[i].(status := status);
        return Response(stored[i := task], true, Success(task));
      }
      i := i + 1;
    }
    return Response(stored, false, Failure(NotFound));
  }

  /** `get_statistics`: the six counts, computed here in one pass over the
      collection; never saves. They are exactly the counts of
      `TaskManager.get_statistics` on the same collection and clock. */
  method GetStatistics(stored: seq<Task>, clock: Clock) returns (r: Response<TaskStore.Stats>)
    ensures r.stored == stored && !r.saved
    ensures r.body == Success(TaskStore.Statistics(stored, clock))
  {
    var todo, inProgress, review, done, overdue := 0, 0, 0, 0, 0;
    var i := 0;
    while i < |stored|
      invariant 0 <= i <= |stored|
      invariant todo == Count(stored[..i], StatusIs("todo"))
      invariant inProgress == Count(stored[..i], StatusIs("in_progress"))
      invariant review == Count(stored[..i], StatusIs("review"))
      invariant done == Count(stored[..i], StatusIs("done"))
      invariant overdue == Count(stored[..i], OverdueAt(clock))
    {
      var t := stored[i];
      CountStep(stored, i, StatusIs("todo"));
      CountStep(stored, i, StatusIs("in_progress"));
      CountStep(stored, i, StatusIs("review"));
      CountStep(stored, i, StatusIs("done"));
      CountStep(stored, i, OverdueAt(clock));
      if t.status == "todo" {
        todo := todo + 1;
      } else if t.status == "in_progress" {
        inProgress := inProgress + 1;
      } else if t.status == "review" {
        review := review + 1;
      } else if t.status == "done" {
        done := done + 1;
      }
      if IsOverdue(t, clock) {
        overdue := overdue + 1;
      }
      i := i + 1;
    }
    assert stored[..i] == stored;
    return Response(stored, false, Success(TaskStore.Stats(|stored|, todo, inProgress, review, done, overdue)));
  }
}
