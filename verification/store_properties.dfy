/** Properties relating several `TaskManager` operations (task_manager.py):
    filtering as a conjunction, the statistics arithmetic, id numbering, the
    invariants the mutators keep, and the tag round trip. */
module StoreProperties {
  import opened Wrappers
  import opened Seqs
  import opened Tasks
  import opened TaskStore

  // ---------------------------------------------------------------------
  // Filtering

  lemma SelectSingle(t: Task, c: Criterion)
    ensures Select([t], c) == if Matches(t, c) then [t] else []
  {
    assert [t][1..] == [];
  }

  /** `list_tasks` distributes over concatenation of collections. */
  lemma ListTasksAppend(a: seq<Task>, b: seq<Task>, q: Query, clock: Clock)
    ensures ListTasks(a + b, q, clock) == ListTasks(a, q, clock) + ListTasks(b, q, clock)
  {
    var a1 := if q.FiltersStatus() then Select(a, StatusIs(q.status.value)) else a;
    var b1 := if q.FiltersStatus() then Select(b, StatusIs(q.status.value)) else b;
    if q.FiltersStatus() {
      SelectAppend(a, b, StatusIs(q.status.value));
    }
    var a2 := if q.FiltersPriority() then Select(a1, PriorityIs(q.priority.value)) else a1;
    var b2 := if q.FiltersPriority() then Select(b1, PriorityIs(q.priority.value)) else b1;
    if q.FiltersPriority() {
      SelectAppend(a1, b1, PriorityIs(q.priority.value));
    }
    if q.overdue {
      SelectAppend(a2, b2, OverdueAt(clock));
    }
  }

  /** On a single record the three filters agree with their conjunction. */
  lemma ListTasksSingle(t: Task, q: Query, clock: Clock)
    ensures ListTasks([t], q, clock) == Select([t], Satisfies(q, clock))
  {
    SelectSingle(t, Satisfies(q, clock));
    var one := [t];
    var byStatus := if q.FiltersStatus() then Select(one, StatusIs(q.status.value)) else one;
    if q.FiltersStatus() {
      SelectSingle(t, StatusIs(q.status.value));
    }
    var byPriority := if q.FiltersPriority() then Select(byStatus, PriorityIs(q.priority.value)) else byStatus;
    if q.FiltersPriority() {
      if byStatus == [] {
        assert byPriority == [];
      } else {
        SelectSingle(t, PriorityIs(q.priority.value));
      }
    }
    if q.overdue {
      if byPriority == [] {
        assert Select(byPriority, OverdueAt(clock)) == [];
      } else {
        SelectSingle(t, OverdueAt(clock));
      }
    }
  }

  /** The three successive filters of `list_tasks` select exactly the records
      that pass every switched-on filter, in their original order: so the
      order of the filters is immaterial and the result keeps the order of
      the collection. */
  lemma {:induction false} ListTasksIsConjunctive(tasks: seq<Task>, q: Query, clock: Clock)
    ensures ListTasks(tasks, q, clock) == Select(tasks, Satisfies(q, clock))
    ensures IsSubsequence(ListTasks(tasks, q, clock), tasks)
    ensures forall t :: t in ListTasks(tasks, q, clock) <==> t in tasks && Matches(t, Satisfies(q, clock))
    decreases |tasks|
  {
    if |tasks| > 0 {
      var t := tasks[0];
      var tail := tasks[1..];
      assert tasks == [t] + tail;
      ListTasksAppend([t], tail, q, clock);
      ListTasksIsConjunctive(tail, q, clock);
      ListTasksSingle(t, q, clock);
      SelectAppend([t], tail, Satisfies(q, clock));
    }
  }

  // ---------------------------------------------------------------------
  // Statistics

  lemma {:induction false} StatusCountsAtMostTotal(tasks: seq<Task>)
    ensures Count(tasks, StatusIs("todo")) + Count(tasks, StatusIs("in_progress"))
          + Count(tasks, StatusIs("review")) + Count(tasks, StatusIs("done")) <= |tasks|
    ensures KnownStatuses(tasks) ==>
              (Count(tasks, StatusIs("todo")) + Count(tasks, StatusIs("in_progress"))
               + Count(tasks, StatusIs("review")) + Count(tasks, StatusIs("done")) == |tasks|)
    decreases |tasks|
  {
    if |tasks| > 0 {
      StatusCountsAtMostTotal(tasks[1..]);
      CountCons(tasks, StatusIs("todo"));
      CountCons(tasks, StatusIs("in_progress"));
      CountCons(tasks, StatusIs("review"));
      CountCons(tasks, StatusIs("done"));
      assert KnownStatuses(tasks) ==> tasks[0].status in Statuses;
      assert KnownStatuses(tasks) ==> KnownStatuses(tasks[1..]) by {
        assert forall i :: 1 <= i < |tasks| ==> tasks[1..][i-1] == tasks[i];
      }
    }
  }

  lemma {:induction false} OverdueAndDoneDisjoint(tasks: seq<Task>, clock: Clock)
    ensures Count(tasks, OverdueAt(clock)) + Count(tasks, StatusIs("done")) <= |tasks|
    decreases |tasks|
  {
    if |tasks| > 0 {
      OverdueAndDoneDisjoint(tasks[1..], clock);
      CountCons(tasks, OverdueAt(clock));
      CountCons(tasks, StatusIs("done"));
    }
  }

  /** The counts `get_statistics` reports are consistent: the four status
      counts never exceed the total and add up to it when every status is one
      of the four values; no overdue task is done. */
  lemma StatisticsConsistent(tasks: seq<Task>, clock: Clock)
    ensures var s := Statistics(tasks, clock);
      && s.todo + s.inProgress + s.review + s.done <= s.total
      && (KnownStatuses(tasks) ==> s.todo + s.inProgress + s.review + s.done == s.total)
      && s.overdue <= s.total - s.done
  {
    StatusCountsAtMostTotal(tasks);
    OverdueAndDoneDisjoint(tasks, clock);
  }

  // ---------------------------------------------------------------------
  // Id numbering

  /** The arguments of one `add_task` call. */
  datatype NewTask = NewTask(title: string, description: string, priority: int,
                             due: Option<string>, tags: Option<seq<string>>, createdAt: string)

  /** The collection after a series of `add_task` calls, in order. */
  function CreateAll(tasks: seq<Task>, reqs: seq<NewTask>): seq<Task>
    decreases |reqs|
  {
    if |reqs| == 0 then tasks
    else
      var n := reqs[0];
      CreateAll(AddTask(tasks, n.title, n.description, n.priority, n.due, n.tags, n.createdAt).tasks, reqs[1..])
  }

  predicate NumberedFromOne(tasks: seq<Task>)
  {
    forall i :: 0 <= i < |tasks| ==> tasks[i].id == i + 1
  }

  lemma AddTaskContinuesNumbering(tasks: seq<Task>, n: NewTask)
    requires NumberedFromOne(tasks)
    ensures NumberedFromOne(AddTask(tasks, n.title, n.description, n.priority, n.due, n.tags, n.createdAt).tasks)
  {
    var id := GenerateId(tasks);
    if |tasks| > 0 {
      assert tasks[|tasks| - 1].id == |tasks|;
    }
    assert id == |tasks| + 1;
  }

  /** Starting from an empty collection, N creations assign the ids 1..N in
      creation order. */
  lemma {:induction false} CreatesNumberFromOne(tasks: seq<Task>, reqs: seq<NewTask>)
    requires NumberedFromOne(tasks)
    ensures |CreateAll(tasks, reqs)| == |tasks| + |reqs|
    ensures NumberedFromOne(CreateAll(tasks, reqs))
    decreases |reqs|
  {
    if |reqs| > 0 {
      var n := reqs[0];
      AddTaskContinuesNumbering(tasks, n);
      CreatesNumberFromOne(AddTask(tasks, n.title, n.description, n.priority, n.due, n.tags, n.createdAt).tasks, reqs[1..]);
    }
  }

  // ---------------------------------------------------------------------
  // Invariants the mutators keep

  predicate SameIds(a: seq<Task>, b: seq<Task>)
  {
    |a| == |b| && forall i :: 0 <= i < |a| ==> a[i].id == b[i].id
  }

  /** An outcome that changes at most the first record with `id`, keeping its id. */
  lemma FrameKeepsIds(tasks: seq<Task>, id: TaskId, r: Outcome)
    requires OnlyFirstMatchChanges(tasks, id, r)
    requires forall i :: 0 <= i < |tasks| && IsFirstMatch(tasks, id, i) ==> r.tasks[i].id == tasks[i].id
    ensures SameIds(tasks, r.tasks)
  {
    if HasId(tasks, id) {
      FirstMatchExists(tasks, id);
    }
  }

  /** Records with the same ids in the same places are distinct together. */
  lemma SameIdsKeepDistinct(a: seq<Task>, b: seq<Task>)
    requires SameIds(a, b) && DistinctIds(a)
    ensures DistinctIds(b)
  {
    forall i, j | 0 <= i < j < |b|
      ensures b[i].id != b[j].id
    {
      assert a[i].id != a[j].id;
    }
  }

  /** No update, tag change or creation makes two records share an id. */
  lemma MutatorsKeepIdsDistinct(tasks: seq<Task>, id: TaskId, e: Edit, tag: string, n: NewTask)
    requires DistinctIds(tasks)
    ensures DistinctIds(UpdateField(tasks, id, e).tasks)
    ensures DistinctIds(AddTag(tasks, id, tag).tasks)
    ensures DistinctIds(RemoveTag(tasks, id, tag).tasks)
    ensures DistinctIds(AddTask(tasks, n.title, n.description, n.priority, n.due, n.tags, n.createdAt).tasks)
  {
    UpdateKeepsIdsDistinct(tasks, id, e);
    AddTagKeepsIdsDistinct(tasks, id, tag);
    RemoveTagKeepsIdsDistinct(tasks, id, tag);
  }

  lemma UpdateKeepsIdsDistinct(tasks: seq<Task>, id: TaskId, e: Edit)
    requires DistinctIds(tasks)
    ensures DistinctIds(UpdateField(tasks, id, e).tasks)
  {
    var r := UpdateField(tasks, id, e);
    FrameKeepsIds(tasks, id, r);
    SameIdsKeepDistinct(tasks, r.tasks);
  }

  lemma AddTagKeepsIdsDistinct(tasks: seq<Task>, id: TaskId, tag: string)
    requires DistinctIds(tasks)
    ensures DistinctIds(AddTag(tasks, id, tag).tasks)
  {
    var r := AddTag(tasks, id, tag);
    FrameKeepsIds(tasks, id, r);
    SameIdsKeepDistinct(tasks, r.tasks);
  }

  lemma RemoveTagKeepsIdsDistinct(tasks: seq<Task>, id: TaskId, tag: string)
    requires DistinctIds(tasks)
    ensures DistinctIds(RemoveTag(tasks, id, tag).tasks)
  {
    var r := RemoveTag(tasks, id, tag);
    FrameKeepsIds(tasks, id, r);
    SameIdsKeepDistinct(tasks, r.tasks);
  }

  /** An outcome that changes at most the first record with `id`, leaving it
      a known status, keeps every status known. */
  lemma FrameKeepsStatuses(tasks: seq<Task>, id: TaskId, r: Outcome)
    requires KnownStatuses(tasks) && OnlyFirstMatchChanges(tasks, id, r)
    requires forall i :: 0 <= i < |tasks| && IsFirstMatch(tasks, id, i) ==> r.tasks[i].status in Statuses
    ensures KnownStatuses(r.tasks)
  {
    if HasId(tasks, id) {
      FirstMatchExists(tasks, id);
      var i :| IsFirstMatch(tasks, id, i);
      assert ChangedOnlyAt(tasks, r.tasks, i);
    }
  }

  /** Creation and every update other than a status update leave statuses
      alone; a status update keeps them among the four values when the new
      one is among them. */
  lemma MutatorsKeepKnownStatuses(tasks: seq<Task>, id: TaskId, e: Edit, tag: string, n: NewTask)
    requires KnownStatuses(tasks)
    ensures e.SetStatus? && e.status in Statuses ==> KnownStatuses(UpdateField(tasks, id, e).tasks)
    ensures !e.SetStatus? ==> KnownStatuses(UpdateField(tasks, id, e).tasks)
    ensures KnownStatuses(AddTag(tasks, id, tag).tasks)
    ensures KnownStatuses(RemoveTag(tasks, id, tag).tasks)
    ensures KnownStatuses(AddTask(tasks, n.title, n.description, n.priority, n.due, n.tags, n.createdAt).tasks)
  {
    if !e.SetStatus? || e.status in Statuses {
      UpdateKeepsKnownStatuses(tasks, id, e);
    }
    TagsKeepKnownStatuses(tasks, id, tag);
    var created := AddTask(tasks, n.title, n.description, n.priority, n.due, n.tags, n.createdAt);
    assert created.tasks == tasks + [created.found.value];
  }

  lemma UpdateKeepsKnownStatuses(tasks: seq<Task>, id: TaskId, e: Edit)
    requires KnownStatuses(tasks) && (e.SetStatus? ==> e.status in Statuses)
    ensures KnownStatuses(UpdateField(tasks, id, e).tasks)
  {
    var r := UpdateField(tasks, id, e);
    forall i | 0 <= i < |tasks| && IsFirstMatch(tasks, id, i)
      ensures r.tasks[i].status in Statuses
    {
      assert r.tasks[i] == Apply(tasks[i], e);
    }
    FrameKeepsStatuses(tasks, id, r);
  }

  lemma TagsKeepKnownStatuses(tasks: seq<Task>, id: TaskId, tag: string)
    requires KnownStatuses(tasks)
    ensures KnownStatuses(AddTag(tasks, id, tag).tasks)
    ensures KnownStatuses(RemoveTag(tasks, id, tag).tasks)
  {
    var added := AddTag(tasks, id, tag);
    forall i | 0 <= i < |tasks| && IsFirstMatch(tasks, id, i)
      ensures added.tasks[i].status in Statuses
    {
      assert added.tasks[i] == tasks[i].(tags := added.tasks[i].tags);
    }
    FrameKeepsStatuses(tasks, id, added);
    var removed := RemoveTag(tasks, id, tag);
    forall i | 0 <= i < |tasks| && IsFirstMatch(tasks, id, i)
      ensures removed.tasks[i].status in Statuses
    {
      assert removed.tasks[i] == tasks[i].(tags := removed.tasks[i].tags);
    }
    FrameKeepsStatuses(tasks, id, removed);
  }

  // ---------------------------------------------------------------------
  // Lookup and tags across calls

  /** After an update, `get_task` on the same id returns what the update returned. */
  lemma LookupSeesUpdate(tasks: seq<Task>, id: TaskId, e: Edit)
    ensures GetTask(UpdateField(tasks, id, e).tasks, id) == UpdateField(tasks, id, e).found
  {
    var r := UpdateField(tasks, id, e);
    if HasId(tasks, id) {
      FirstMatchExists(tasks, id);
      var i :| IsFirstMatch(tasks, id, i);
      assert IsFirstMatch(r.tasks, id, i);
    } else {
      assert r.tasks == tasks;
    }
  }

  /** Adding a tag that is already present changes nothing and saves nothing. */
  lemma AddTagIdempotent(tasks: seq<Task>, id: TaskId, tag: string)
    ensures var once := AddTag(tasks, id, tag);
            var twice := AddTag(once.tasks, id, tag);
            twice.tasks == once.tasks && twice.found == once.found && !twice.saved
  {
    var once := AddTag(tasks, id, tag);
    if HasId(tasks, id) {
      FirstMatchExists(tasks, id);
      var i :| IsFirstMatch(tasks, id, i);
      assert IsFirstMatch(once.tasks, id, i);
    }
  }

  /** Adding a tag the record does not carry and removing it again restores
      the collection. */
  lemma AddThenRemoveTagRestores(tasks: seq<Task>, id: TaskId, tag: string)
    requires forall i :: 0 <= i < |tasks| && IsFirstMatch(tasks, id, i) ==> tag !in tasks[i].tags
    ensures RemoveTag(AddTag(tasks, id, tag).tasks, id, tag).tasks == tasks
  {
    var added := AddTag(tasks, id, tag);
    if HasId(tasks, id) {
      var i := FindIndex(tasks, id).value;
      var t := tasks[i].(tags := tasks[i].tags + [tag]);
      assert added.tasks == tasks[i := t];
      assert IsFirstMatch(added.tasks, id, i);
      assert FindIndex(added.tasks, id) == Some(i);
      RemoveAppended(tasks[i].tags, tag);
      assert added.tasks[i := t.(tags := tasks[i].tags)] == tasks;
    }
  }
}
