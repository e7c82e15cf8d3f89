/** The in-memory operations of `TaskManager` (task_manager.py). The resident
    list `self.tasks` is a parameter; each mutator returns the new list, the
    record it hands back (None for "not found") and whether it called
    `_save_tasks`. */
module TaskStore {
  import opened Wrappers
  import opened Seqs
  import opened Tasks

  /** What a mutating call leaves behind. */
  datatype Outcome = Outcome(tasks: seq<Task>, found: Option<Task>, saved: bool)

  // ---------------------------------------------------------------------
  // Id generation (task_manager.py:27-32)

  /** `max(int(task["id"]) for task in tasks)`. */
  function MaxId(tasks: seq<Task>): (m: nat)
    requires |tasks| > 0
    ensures forall i :: 0 <= i < |tasks| ==> tasks[i].id <= m
    ensures exists i :: 0 <= i < |tasks| && tasks[i].id == m
  {
    if |tasks| == 1 then tasks[0].id
    else
      var rest := MaxId(tasks[1..]);
      assert forall i :: 1 <= i < |tasks| ==> tasks[i] == tasks[1..][i-1];
      if tasks[0].id >= rest then tasks[0].id else rest
  }

  /** `_generate_id`: 1 for an empty collection, otherwise one more than the
      largest id, so larger than, and distinct from, every existing id. */
  function GenerateId(tasks: seq<Task>): (id: TaskId)
    ensures |tasks| == 0 ==> id == 1
    ensures forall i :: 0 <= i < |tasks| ==> tasks[i].id < id
    ensures |tasks| > 0 ==> exists i :: 0 <= i < |tasks| && id == tasks[i].id + 1
  {
    if |tasks| == 0 then 1 else MaxId(tasks) + 1
  }

  // ---------------------------------------------------------------------
  // Creation (task_manager.py:34-47)

  /** `add_task`: `tags` is None when the caller leaves it out; `tags or []`
      turns None (and the empty list) into []. */
  function AddTask(tasks: seq<Task>, title: string, description: string, priority: int,
                   due: Option<string>, tags: Option<seq<string>>, createdAt: string): (r: Outcome)
    ensures r.saved && r.found.Some?
    ensures |r.tasks| == |tasks| + 1 && r.tasks[..|tasks|] == tasks
    ensures r.found.value == r.tasks[|tasks|]
    ensures forall i :: 0 <= i < |tasks| ==> tasks[i].id < r.found.value.id
    ensures var t := r.found.value;
      && t.status == "todo"
      && t.title == title && t.description == description && t.priority == priority
      && t.due == due && t.createdAt == createdAt
      && (tags.None? ==> t.tags == [])
      && (tags.Some? ==> t.tags == tags.value)
  {
    var t := Task(GenerateId(tasks), title, description, priority, due, tags.GetOr([]), "todo", createdAt);
    Outcome(tasks + [t], Some(t), true)
  }

  // ---------------------------------------------------------------------
  // Filtering (task_manager.py:49-62)

  /** `list_tasks`: the status filter, then the priority filter, then the
      overdue filter, each applied only when switched on. */
  function ListTasks(tasks: seq<Task>, q: Query, clock: Clock): (r: seq<Task>)
    ensures |r| <= |tasks|
    ensures forall t :: t in r ==> t in tasks && Matches(t, Satisfies(q, clock))
    ensures !q.FiltersStatus() && !q.FiltersPriority() && !q.overdue ==> r == tasks
  {
    var byStatus := if q.FiltersStatus() then Select(tasks, StatusIs(q.status.value)) else tasks;
    var byPriority := if q.FiltersPriority() then Select(byStatus, PriorityIs(q.priority.value)) else byStatus;
    if q.overdue then Select(byPriority, OverdueAt(clock)) else byPriority
  }

  // ---------------------------------------------------------------------
  // Find-first-and-mutate updates (task_manager.py:64-104)

  /** The frame every update obeys: None exactly when the id is absent, and
      then nothing changes and nothing is saved; otherwise only the first
      record with the id may change, and that record is returned. */
  predicate OnlyFirstMatchChanges(tasks: seq<Task>, id: TaskId, r: Outcome)
  {
    && (r.found.None? <==> !HasId(tasks, id))
    && (r.found.None? ==> r.tasks == tasks && !r.saved)
    && forall i :: 0 <= i < |tasks| && IsFirstMatch(tasks, id, i) ==>
         ChangedOnlyAt(tasks, r.tasks, i) && r.found == Some(r.tasks[i])
  }

  /** One of the single-field assignments `task[...] = value`. */
  datatype Edit = SetStatus(status: string) | SetPriority(priority: int) | SetDue(due: Option<string>)

  function Apply(t: Task, e: Edit): Task
  {
    match e
    case SetStatus(s) => t.(status := s)
    case SetPriority(p) => t.(priority := p)
    case SetDue(d) => t.(due := d)
  }

  /** The loop shared by `update_status`, `update_priority` and `update_due_date`. */
  function UpdateField(tasks: seq<Task>, id: TaskId, e: Edit): (r: Outcome)
    ensures OnlyFirstMatchChanges(tasks, id, r)
    ensures r.saved <==> HasId(tasks, id)
    ensures forall i :: IsFirstMatch(tasks, id, i) ==> r.tasks[i] == Apply(tasks[i], e)
  {
    match FindIndex(tasks, id)
    case None => Outcome(tasks, None, false)
    case Some(i) =>
      var t := Apply(tasks[i], e);
      Outcome(tasks[i := t], Some(t), true)
  }

  /** `update_status`: only the status of the first matching record changes. */
  function UpdateStatus(tasks: seq<Task>, id: TaskId, status: string): (r: Outcome)
    ensures OnlyFirstMatchChanges(tasks, id, r)
    ensures r.saved <==> HasId(tasks, id)
    ensures forall i :: IsFirstMatch(tasks, id, i) ==> r.tasks[i] == tasks[i].(status := status)
  {
    UpdateField(tasks, id, SetStatus(status))
  }

  /** `update_priority`: only the priority of the first matching record changes;
      the value is not range-checked. */
  function UpdatePriority(tasks: seq<Task>, id: TaskId, priority: int): (r: Outcome)
    ensures OnlyFirstMatchChanges(tasks, id, r)
    ensures r.saved <==> HasId(tasks, id)
    ensures forall i :: IsFirstMatch(tasks, id, i) ==> r.tasks[i] == tasks[i].(priority := priority)
  {
    UpdateField(tasks, id, SetPriority(priority))
  }

  /** `update_due_date`: only the due date of the first matching record
      changes; the string is not checked to be a date. */
  function UpdateDueDate(tasks: seq<Task>, id: TaskId, due: Option<string>): (r: Outcome)
    ensures OnlyFirstMatchChanges(tasks, id, r)
    ensures r.saved <==> HasId(tasks, id)
    ensures forall i :: IsFirstMatch(tasks, id, i) ==> r.tasks[i] == tasks[i].(due := due)
  {
    UpdateField(tasks, id, SetDue(due))
  }

  /** `add_tag`: appends the tag unless it is already there; saves only when
      it appends. */
  function AddTag(tasks: seq<Task>, id: TaskId, tag: string): (r: Outcome)
    ensures OnlyFirstMatchChanges(tasks, id, r)
    ensures forall i :: IsFirstMatch(tasks, id, i) ==>
      && r.tasks[i] == tasks[i].(tags := r.tasks[i].tags)
      && tag in r.tasks[i].tags
      && (tag in tasks[i].tags ==> r.tasks == tasks && !r.saved)
      && (tag !in tasks[i].tags ==> r.tasks[i].tags == tasks[i].tags + [tag] && r.saved)
      && (NoDuplicates(tasks[i].tags) ==> NoDuplicates(r.tasks[i].tags))
  {
    match FindIndex(tasks, id)
    case None => Outcome(tasks, None, false)
    case Some(i) =>
      if tag in tasks[i].tags then Outcome(tasks, Some(tasks[i]), false)
      else
        var t := tasks[i].(tags := tasks[i].tags + [tag]);
        Outcome(tasks[i := t], Some(t), true)
  }

  /** What `task["tags"].remove(tag)` under the `tag in task["tags"]` guard
      does to a tag list: exactly one occurrence goes, the first one, and the
      rest keep their order; a list without the tag stays as it is. */
  predicate TagRemoved(before: seq<string>, after: seq<string>, tag: string)
  {
    && IsFirstRemoval(before, after, tag)
    && multiset(after) == multiset(before) - multiset{tag}
    && IsSubsequence(after, before)
    && (tag in before ==> |after| == |before| - 1)
    && (NoDuplicates(before) ==> tag !in after)
  }

  lemma RemoveFirstRemovesTag(tags: seq<string>, tag: string)
    ensures TagRemoved(tags, RemoveFirst(tags, tag), tag)
  {
    RemoveFirstDeletesOne(tags, tag);
    RemoveFirstIsFirstRemoval(tags, tag);
    RemoveFirstNoDuplicates(tags, tag);
  }

  /** `remove_tag`: deletes the first occurrence of the tag if there is one
      and saves; otherwise changes and saves nothing. */
  function RemoveTag(tasks: seq<Task>, id: TaskId, tag: string): (r: Outcome)
    ensures OnlyFirstMatchChanges(tasks, id, r)
    ensures forall i :: IsFirstMatch(tasks, id, i) ==>
      && r.tasks[i] == tasks[i].(tags := r.tasks[i].tags)
      && TagRemoved(tasks[i].tags, r.tasks[i].tags, tag)
      && (tag !in tasks[i].tags ==> r.tasks == tasks && !r.saved)
      && (tag in tasks[i].tags ==> r.saved)
  {
    match FindIndex(tasks, id)
    case None => Outcome(tasks, None, false)
    case Some(i) =>
      var tags := tasks[i].tags;
      RemoveFirstRemovesTag(tags, tag);
      if tag in tags then
        var t := tasks[i].(tags := RemoveFirst(tags, tag));
        Outcome(tasks[i := t], Some(t), true)
      else
        Outcome(tasks, Some(tasks[i]), false)
  }

  // ---------------------------------------------------------------------
  // Lookup (task_manager.py:106-110)

  /** `get_task`: the first record with the id, or None. */
  function GetTask(tasks: seq<Task>, id: TaskId): (r: Option<Task>)
    ensures r.None? <==> !HasId(tasks, id)
    ensures forall i :: IsFirstMatch(tasks, id, i) ==> r == Some(tasks[i])
  {
    match FindIndex(tasks, id)
    case None => None
    case Some(i) => Some(tasks[i])
  }

  // ---------------------------------------------------------------------
  // Statistics (task_manager.py:112-124)

  /** The dictionary `get_statistics` returns. */
  datatype Stats = Stats(total: nat, todo: nat, inProgress: nat, review: nat, done: nat, overdue: nat)

  /** `get_statistics`: the size, and for each status and for the overdue
      test the number of records `list_tasks` returns when filtered by it. */
  function Statistics(tasks: seq<Task>, clock: Clock): (s: Stats)
    ensures s.total == |tasks|
    ensures s.overdue == |ListTasks(tasks, Query(None, None, true), clock)|
    ensures s.todo <= s.total && s.inProgress <= s.total && s.review <= s.total && s.done <= s.total
    ensures && s.todo == |ListTasks(tasks, Query(Some("todo"), None, false), clock)|
            && s.inProgress == |ListTasks(tasks, Query(Some("in_progress"), None, false), clock)|
            && s.review == |ListTasks(tasks, Query(Some("review"), None, false), clock)|
            && s.done == |ListTasks(tasks, Query(Some("done"), None, false), clock)|
  {
    Stats(
      |tasks|,
      Count(tasks, StatusIs("todo")),
      Count(tasks, StatusIs("in_progress")),
      Count(tasks, StatusIs("review")),
      Count(tasks, StatusIs("done")),
      Count(tasks, OverdueAt(clock)))
  }
}
