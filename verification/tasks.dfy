/** The task record, the clock the overdue test reads, and the lookups and
    filters that TaskManager (task_manager.py) and the HTTP adapter (main.py)
    both perform over a collection of tasks. */
module Tasks {
  import opened Wrappers
  import opened Seqs

  /** A task id is the decimal string "1", "2", ...; the model keeps its value. */
  type TaskId = nat

  /** One record of the JSON array. `due` is the optional ISO-8601 string;
      `createdAt` is the opaque timestamp written at creation. */
  datatype Task = Task(
    id: TaskId,
    title: string,
    description: string,
    priority: int,
    due: Option<string>,
    tags: seq<string>,
    status: string,
    createdAt: string)

  /** The four statuses: the `choices` of `--status` and `new_status` (cli.py:18, :28).
      The core itself stores any string. */
  const Statuses: set<string> := {"todo", "in_progress", "review", "done"}

  /** `now` is the wall-clock reading; `parse` stands for `datetime.fromisoformat`,
      mapping a due-date string to a point in time. */
  datatype Clock = Clock(now: int, parse: string -> int)

  /** Python truthiness of `t["due"]`: both `None` and "" count as no due date. */
  predicate HasDue(t: Task)
  {
    t.due.Some? && t.due.value != ""
  }

  /** The overdue test of task_manager.py:60, :122 and main.py:112. */
  predicate IsOverdue(t: Task, clock: Clock)
  {
    HasDue(t) && clock.parse(t.due.value) < clock.now && t.status != "done"
  }

  // ---------------------------------------------------------------------
  // Lookup by id

  predicate HasId(tasks: seq<Task>, id: TaskId)
  {
    exists i :: 0 <= i < |tasks| && tasks[i].id == id
  }

  /** `i` is where a `for task in tasks: if task["id"] == id` loop stops. */
  predicate IsFirstMatch(tasks: seq<Task>, id: TaskId, i: int)
  {
    && 0 <= i < |tasks|
    && tasks[i].id == id
    && forall j :: 0 <= j < i ==> tasks[j].id != id
  }

  /** The index of the first record with the id, or None. */
  function FindIndex(tasks: seq<Task>, id: TaskId): (r: Option<nat>)
    ensures r.None? <==> !HasId(tasks, id)
    ensures r.Some? ==> IsFirstMatch(tasks, id, r.value)
  {
    if |tasks| == 0 then None
    else if tasks[0].id == id then Some(0)
    else
      match FindIndex(tasks[1..], id)
      case None =>
        assert forall i :: 1 <= i < |tasks| ==> tasks[i] == tasks[1..][i-1];
        None
      case Some(j) => Some(j + 1)
  }

  /** A first match exists exactly when the id is present, and it is unique. */
  lemma FirstMatchExists(tasks: seq<Task>, id: TaskId)
    requires HasId(tasks, id)
    ensures exists i :: IsFirstMatch(tasks, id, i)
  {
    assert IsFirstMatch(tasks, id, FindIndex(tasks, id).value);
  }

  /** `b` differs from `a` at most at position `i`, and has the same length. */
  predicate ChangedOnlyAt(a: seq<Task>, b: seq<Task>, i: int)
  {
    |a| == |b| && forall j :: 0 <= j < |a| && j != i ==> a[j] == b[j]
  }

  /** Invariant of the data model: no two records share an id. */
  predicate DistinctIds(tasks: seq<Task>)
  {
    forall i, j :: 0 <= i < j < |tasks| ==> tasks[i].id != tasks[j].id
  }

  /** Invariant of the data model: every status is one of the four values. */
  predicate KnownStatuses(tasks: seq<Task>)
  {
    forall i :: 0 <= i < |tasks| ==> tasks[i].status in Statuses
  }

  // ---------------------------------------------------------------------
  // Filtering

  /** The three optional filters of `list_tasks`. */
  datatype Query = Query(status: Option<string>, priority: Option<int>, overdue: bool)
  {
    /** Python's `if status:` — `None` and "" both switch the filter off. */
    predicate FiltersStatus()
    {
      status.Some? && status.value != ""
    }

    /** Python's `if priority:` — `None` and 0 both switch the filter off. */
    predicate FiltersPriority()
    {
      priority.Some? && priority.value != 0
    }
  }

  /** `list_tasks()` called with no arguments. */
  const Unfiltered: Query := Query(None, None, false)

  /** A condition a single record may meet. */
  datatype Criterion =
    | StatusIs(status: string)
    | PriorityIs(priority: int)
    | OverdueAt(clock: Clock)
    | Satisfies(query: Query, clock: Clock)

  /** `Satisfies(q, clock)` is the conjunction of the filters `q` switches on. */
  predicate Matches(t: Task, c: Criterion)
  {
    match c
    case StatusIs(s) => t.status == s
    case PriorityIs(p) => t.priority == p
    case OverdueAt(clock) => IsOverdue(t, clock)
    case Satisfies(q, clock) =>
      && (q.FiltersStatus() ==> t.status == q.status.value)
      && (q.FiltersPriority() ==> t.priority == q.priority.value)
      && (q.overdue ==> IsOverdue(t, clock))
  }

  /** A list comprehension `[t for t in tasks if ...]`: the matching records,
      each as often as it occurs, in their original order. */
  function Select(tasks: seq<Task>, c: Criterion): (r: seq<Task>)
    ensures |r| <= |tasks|
    ensures forall t :: t in r <==> t in tasks && Matches(t, c)
    ensures IsSubsequence(r, tasks)
  {
    if |tasks| == 0 then []
    else
      var rest := Select(tasks[1..], c);
      assert tasks == [tasks[0]] + tasks[1..];
      if Matches(tasks[0], c) then
        assert ([tasks[0]] + rest)[1..] == rest;
        [tasks[0]] + rest
      else rest
  }

  /** `len([t for t in tasks if ...])`. */
  function Count(tasks: seq<Task>, c: Criterion): nat
  {
    |Select(tasks, c)|
  }

  lemma {:induction false} SelectAppend(a: seq<Task>, b: seq<Task>, c: Criterion)
    ensures Select(a + b, c) == Select(a, c) + Select(b, c)
    decreases |a|
  {
    if |a| > 0 {
      assert (a + b)[1..] == a[1..] + b;
      SelectAppend(a[1..], b, c);
    } else {
      assert a + b == b;
    }
  }

  /** Counting from the front: the first record adds one exactly when it matches. */
  lemma CountCons(tasks: seq<Task>, c: Criterion)
    requires |tasks| > 0
    ensures Count(tasks, c) == (if Matches(tasks[0], c) then 1 else 0) + Count(tasks[1..], c)
  {
  }

  /** Counting one more record adds one exactly when it matches. */
  lemma CountStep(tasks: seq<Task>, i: nat, c: Criterion)
    requires i < |tasks|
    ensures Count(tasks[..i+1], c) == Count(tasks[..i], c) + (if Matches(tasks[i], c) then 1 else 0)
  {
    assert tasks[..i+1] == tasks[..i] + [tasks[i]];
    SelectAppend(tasks[..i], [tasks[i]], c);
    assert [tasks[i]][1..] == [];
  }
}
