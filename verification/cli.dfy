/** What the command-line adapter (cli.py) hands to `TaskManager`: the
    `--tags` splitter, the argparse value domains, and the dispatch of each
    sub-command to one core operation. Printing is not modelled. */
module Cli {
  import opened Wrappers
  import opened Tasks
  import TaskStore
  import StoreProperties

  // ---------------------------------------------------------------------
  // Splitting on a separator: Python's `str.split(sep)`

  /** How many times `c` occurs in `s`. */
  function Occurrences(s: string, c: char): nat
  {
    if |s| == 0 then 0 else (if s[0] == c then 1 else 0) + Occurrences(s[1..], c)
  }

  /** The pieces of `s` between the occurrences of `sep`, empty pieces kept:
      one more piece than there are separators, none holding a separator. */
  function Split(s: string, sep: char): (parts: seq<string>)
    ensures |parts| == Occurrences(s, sep) + 1
    ensures forall k :: 0 <= k < |parts| ==> sep !in parts[k]
  {
    if |s| == 0 then [""]
    else
      var rest := Split(s[1..], sep);
      if s[0] == sep then [""] + rest
      else [[s[0]] + rest[0]] + rest[1..]
  }

  /** `sep.join(parts)`: the inverse of `Split`. */
  function Join(parts: seq<string>, sep: char): string
    requires |parts| > 0
  {
    if |parts| == 1 then parts[0] else parts[0] + [sep] + Join(parts[1..], sep)
  }

  /** Joining the pieces gives back the string. */
  lemma {:induction false} JoinSplit(s: string, sep: char)
    ensures Join(Split(s, sep), sep) == s
    decreases |s|
  {
    if |s| > 0 {
      var c, tail := s[0], s[1..];
      assert s == [c] + tail;
      var rest := Split(tail, sep);
      JoinSplit(tail, sep);
      assert Join(rest, sep) == tail;
      if c == sep {
        var parts := [""] + rest;
        assert Split(s, sep) == parts;
        assert parts[1..] == rest;
        assert Join(parts, sep) == "" + [sep] + Join(rest, sep);
      } else {
        var parts := [[c] + rest[0]] + rest[1..];
        assert Split(s, sep) == parts;
        if |rest| == 1 {
          assert Join(parts, sep) == [c] + rest[0];
        } else {
          assert parts[1..] == rest[1..];
          assert Join(parts, sep) == ([c] + rest[0]) + [sep] + Join(rest[1..], sep);
          assert Join(rest, sep) == rest[0] + [sep] + Join(rest[1..], sep);
        }
      }
    }
  }

  lemma {:induction false} SplitWithoutSeparator(p: string, sep: char)
    requires sep !in p
    ensures Split(p, sep) == [p]
    decreases |p|
  {
    if |p| > 0 {
      var t := p[1..];
      assert p[0] != sep && sep !in t;
      SplitWithoutSeparator(t, sep);
      assert Split(p, sep) == [[p[0]] + Split(t, sep)[0]] + Split(t, sep)[1..];
      assert [p[0]] + t == p;
    }
  }

  lemma {:induction false} SplitAtSeparator(p: string, rest: string, sep: char)
    requires sep !in p
    ensures Split(p + [sep] + rest, sep) == [p] + Split(rest, sep)
    decreases |p|
  {
    var s := p + [sep] + rest;
    if |p| == 0 {
      assert s == [sep] + rest;
      assert s[1..] == rest;
    } else {
      assert s[1..] == p[1..] + [sep] + rest;
      SplitAtSeparator(p[1..], rest, sep);
      assert [p[0]] + p[1..] == p;
    }
  }

  /** Splitting a joined list gives it back when no piece holds the separator. */
  lemma {:induction false} SplitJoin(parts: seq<string>, sep: char)
    requires |parts| > 0
    requires forall k :: 0 <= k < |parts| ==> sep !in parts[k]
    ensures Split(Join(parts, sep), sep) == parts
    decreases |parts|
  {
    if |parts| == 1 {
      SplitWithoutSeparator(parts[0], sep);
    } else {
      SplitJoin(parts[1..], sep);
      SplitAtSeparator(parts[0], Join(parts[1..], sep), sep);
      assert [parts[0]] + parts[1..] == parts;
    }
  }

  // ---------------------------------------------------------------------
  // Trimming: Python's `str.strip()` with no argument

  /** `str.isspace()` for a single character: the ASCII whitespace and
      separator controls, NEL, NO-BREAK SPACE and the Unicode spaces. */
  predicate IsSpace(c: char)
  {
    var n := c as int;
    || 9 <= n <= 13 || 28 <= n <= 32 || n == 0x85 || n == 0xA0 || n == 0x1680
    || 0x2000 <= n <= 0x200A || n == 0x2028 || n == 0x2029 || n == 0x202F
    || n == 0x205F || n == 0x3000
  }

  predicate AllSpace(s: string)
  {
    forall k :: 0 <= k < |s| ==> IsSpace(s[k])
  }

  /** Neither end of `s` is whitespace. */
  predicate IsTrimmed(s: string)
  {
    |s| > 0 ==> !IsSpace(s[0]) && !IsSpace(s[|s| - 1])
  }

  lemma AllSpaceCons(c: char, s: string)
    requires IsSpace(c) && AllSpace(s)
    ensures AllSpace([c] + s)
  {
    assert forall k :: 1 <= k <= |s| ==> ([c] + s)[k] == s[k - 1];
  }

  lemma AllSpaceSnoc(s: string, c: char)
    requires AllSpace(s) && IsSpace(c)
    ensures AllSpace(s + [c])
  {
    assert forall k :: 0 <= k < |s| ==> (s + [c])[k] == s[k];
  }

  /** The number of whitespace characters `s` starts with. */
  function LeadingSpaces(s: string): (n: nat)
    ensures n <= |s|
    ensures AllSpace(s[..n])
    ensures n < |s| ==> !IsSpace(s[n])
  {
    if |s| > 0 && IsSpace(s[0]) then
      var m := LeadingSpaces(s[1..]);
      AllSpaceCons(s[0], s[1..][..m]);
      assert s[..m + 1] == [s[0]] + s[1..][..m];
      m + 1
    else 0
  }

  /** The number of whitespace characters `s` ends with. */
  function TrailingSpaces(s: string): (n: nat)
    ensures n <= |s|
    ensures AllSpace(s[|s| - n..])
    ensures n < |s| ==> !IsSpace(s[|s| - n - 1])
  {
    if |s| > 0 && IsSpace(s[|s| - 1]) then
      var m := TrailingSpaces(s[..|s| - 1]);
      AllSpaceSnoc(s[..|s| - 1][|s| - 1 - m..], s[|s| - 1]);
      assert s[|s| - (m + 1)..] == s[..|s| - 1][|s| - 1 - m..] + [s[|s| - 1]];
      m + 1
    else 0
  }

  /** `t.rstrip()`: the prefix of `t` before its trailing whitespace. */
  function DropTrailing(t: string): (r: string)
    ensures |r| <= |t| && r == t[..|r|]
    ensures AllSpace(t[|r|..])
    ensures |r| > 0 ==> !IsSpace(r[|r| - 1])
  {
    t[..|t| - TrailingSpaces(t)]
  }

  /** `s.strip()`: `s` with its leading and trailing whitespace removed and
      nothing else: the result is the slice of `s` that starts after the
      leading whitespace, and only whitespace follows it. */
  function Strip(s: string): (r: string)
    ensures IsTrimmed(r)
    ensures var i := LeadingSpaces(s);
      && i + |r| <= |s|
      && r == s[i..i + |r|]
      && AllSpace(s[..i])
      && AllSpace(s[i + |r|..])
  {
    var i := LeadingSpaces(s);
    var r := DropTrailing(s[i..]);
    assert s[i..][|r|..] == s[i + |r|..];
    assert s[i..][..|r|] == s[i..i + |r|];
    r
  }

  /** A string with no whitespace at either end is its own strip. */
  lemma StripOfTrimmed(s: string)
    requires IsTrimmed(s)
    ensures Strip(s) == s
  {
    assert LeadingSpaces(s) == 0;
    assert s[0..] == s;
  }

  /** Stripping twice is stripping once. */
  lemma StripIdempotent(s: string)
    ensures Strip(Strip(s)) == Strip(s)
  {
    StripOfTrimmed(Strip(s));
  }

  /** A leading whitespace character makes no difference to the strip. */
  lemma StripSkipsLeadingSpace(c: char, s: string)
    requires IsSpace(c)
    ensures Strip([c] + s) == Strip(s)
  {
    var cs := [c] + s;
    assert cs[0] == c && cs[1..] == s;
    var i := LeadingSpaces(s);
    assert LeadingSpaces(cs) == i + 1;
    assert cs[i + 1..] == s[i..];
  }

  // ---------------------------------------------------------------------
  // The `--tags` option (cli.py:14, :58)

  /** `[t.strip() for t in tags.split(",")] if tags else []`. */
  function SplitTags(s: string): (tags: seq<string>)
    ensures s == "" ==> tags == []
    ensures s != "" ==> |tags| == Occurrences(s, ',') + 1
    ensures forall k :: 0 <= k < |tags| ==> IsTrimmed(tags[k]) && ',' !in tags[k]
    ensures s != "" ==> forall k :: 0 <= k < |tags| ==> tags[k] == Strip(Split(s, ',')[k])
  {
    if s == "" then []
    else
      var pieces := Split(s, ',');
      var tags := StripEach(pieces);
      assert forall k :: 0 <= k < |tags| ==> ',' !in tags[k] by {
        forall k | 0 <= k < |tags| {
          StripKeepsOut(pieces[k], ',');
        }
      }
      tags
  }

  /** `[t.strip() for t in pieces]`. */
  function StripEach(pieces: seq<string>): (tags: seq<string>)
    ensures |tags| == |pieces|
    ensures forall k :: 0 <= k < |tags| ==> tags[k] == Strip(pieces[k])
  {
    if |pieces| == 0 then []
    else
      var rest := StripEach(pieces[1..]);
      var tags := [Strip(pieces[0])] + rest;
      forall k | 1 <= k < |tags|
        ensures tags[k] == Strip(pieces[k])
      {
        assert tags[k] == rest[k - 1] && pieces[1..][k - 1] == pieces[k];
      }
      tags
  }

  /** Stripping never brings in a character the piece did not hold. */
  lemma StripKeepsOut(p: string, c: char)
    requires c !in p
    ensures c !in Strip(p)
  {
    var r := Strip(p);
    var i := LeadingSpaces(p);
    assert forall k :: 0 <= k < |r| ==> r[k] == p[i + k];
  }

  /** Tags are the stripped pieces of the option value. */
  lemma SplitTagsOfPieces(s: string, pieces: seq<string>)
    requires s != "" && Split(s, ',') == pieces
    ensures SplitTags(s) == StripEach(pieces)
  {
  }

  lemma StripEachPair(a: string, b: string)
    ensures StripEach([a, b]) == [Strip(a), Strip(b)]
  {
    assert [a, b][1..] == [b];
    assert [b][1..] == [];
  }

  lemma StripEachTriple(a: string, b: string, c: string)
    ensures StripEach([a, b, c]) == [Strip(a), Strip(b), Strip(c)]
  {
    assert [a, b, c][1..] == [b, c];
    StripEachPair(b, c);
  }

  lemma SplitPieces(t: string)
    requires ',' !in t
    ensures Split(t + [','] + ([' '] + t), ',') == [t, [' '] + t]
    ensures Split(t + [','] + ([] + [','] + t), ',') == [t, [], t]
  {
    SplitAtSeparator(t, [' '] + t, ',');
    SplitWithoutSeparator([' '] + t, ',');
    SplitAtSeparator(t, [] + [','] + t, ',');
    SplitAtSeparator([], t, ',');
    SplitWithoutSeparator(t, ',');
  }

  /** Repeated tags are kept, not merged: "x, x" gives two tags "x". */
  lemma SplitTagsKeepsDuplicates(t: string)
    requires IsTrimmed(t) && ',' !in t
    ensures SplitTags(t + [','] + ([' '] + t)) == [t, t]
  {
    SplitPieces(t);
    SplitTagsOfPieces(t + [','] + ([' '] + t), [t, [' '] + t]);
    StripEachPair(t, [' '] + t);
    StripOfTrimmed(t);
    StripSkipsLeadingSpace(' ', t);
  }

  /** Empty pieces are kept, not dropped: "x,,x" gives three tags. */
  lemma SplitTagsKeepsEmptyPieces(t: string)
    requires IsTrimmed(t) && ',' !in t
    ensures SplitTags(t + [','] + ([] + [','] + t)) == [t, [], t]
  {
    SplitPieces(t);
    SplitTagsOfPieces(t + [','] + ([] + [','] + t), [t, [], t]);
    StripEachTriple(t, [], t);
    StripOfTrimmed(t);
    StripOfTrimmed([]);
  }

  // ---------------------------------------------------------------------
  // Sub-commands and their argparse value domains

  /** The `choices` of `list --priority` and `new_priority` (cli.py:19, :33). */
  const PriorityChoices: set<int> := {1, 2, 3, 4}
  /** The default of `create --priority` (cli.py:12), which has no `choices`. */
  const DefaultPriority: int := 2

  /** A parsed command line; an option left out is None. Task ids are the
      numeric value of the `task_id` argument. */
  datatype Command =
    | Create(title: string, description: string, priority: Option<int>, due: Option<string>, tags: string)
    | List(status: Option<string>, priority: Option<int>, overdue: bool)
    | Stats
    | UpdateStatus(id: TaskId, newStatus: string)
    | UpdatePriority(id: TaskId, newPriority: int)
    | UpdateDueDate(id: TaskId, newDue: string)
    | AddTag(id: TaskId, tag: string)
    | RemoveTag(id: TaskId, tag: string)
    | Show(id: TaskId)

  /** The command lines argparse accepts: values outside `choices` are rejected. */
  predicate Accepted(cmd: Command)
  {
    match cmd
    case List(status, priority, _) =>
      (status.None? || status.value in Statuses) && (priority.None? || priority.value in PriorityChoices)
    case UpdateStatus(_, status) => status in Statuses
    case UpdatePriority(_, priority) => priority in PriorityChoices
    case _ => true
  }

  /** What the core hands back to be printed. */
  datatype Reply =
    | Created(created: Task)
    | Listed(tasks: seq<Task>)
    | Counted(stats: TaskStore.Stats)
    | Changed(changed: Option<Task>)
    | Shown(shown: Option<Task>)

  /** One CLI run: the core operation the command calls, the collection it
      leaves and what it returns for printing. */
  function Run(cmd: Command, tasks: seq<Task>, clock: Clock, createdAt: string): (r: (seq<Task>, Reply))
    ensures cmd.List? || cmd.Stats? || cmd.Show? ==> r.0 == tasks
    ensures cmd.Create? ==> |r.0| == |tasks| + 1 && r.0[..|tasks|] == tasks
    ensures !cmd.Create? ==> |r.0| == |tasks|
    ensures cmd.Create? ==>
              (&& r.1.Created? && r.1.created.status == "todo"
               && r.1.created.tags == SplitTags(cmd.tags)
               && r.1.created.priority == cmd.priority.GetOr(DefaultPriority))
  {
    match cmd
    case Create(title, description, priority, due, tags) =>
      var o := TaskStore.AddTask(tasks, title, description, priority.GetOr(DefaultPriority), due,
                                 Some(SplitTags(tags)), createdAt);
      (o.tasks, Created(o.found.value))
    case List(status, priority, overdue) =>
      (tasks, Listed(TaskStore.ListTasks(tasks, Query(status, priority, overdue), clock)))
    case Stats =>
      (tasks, Counted(TaskStore.Statistics(tasks, clock)))
    case UpdateStatus(id, status) =>
      var o := TaskStore.UpdateStatus(tasks, id, status);
      (o.tasks, Changed(o.found))
    case UpdatePriority(id, priority) =>
      var o := TaskStore.UpdatePriority(tasks, id, priority);
      (o.tasks, Changed(o.found))
    case UpdateDueDate(id, due) =>
      var o := TaskStore.UpdateDueDate(tasks, id, Some(due));
      (o.tasks, Changed(o.found))
    case AddTag(id, tag) =>
      var o := TaskStore.AddTag(tasks, id, tag);
      (o.tasks, Changed(o.found))
    case RemoveTag(id, tag) =>
      var o := TaskStore.RemoveTag(tasks, id, tag);
      (o.tasks, Changed(o.found))
    case Show(id) =>
      (tasks, Shown(TaskStore.GetTask(tasks, id)))
  }

  /** A run of an accepted command keeps every status among the four values:
      `update-status` is the only command that writes one, and argparse lets
      only those four through. */
  lemma RunKeepsKnownStatuses(cmd: Command, tasks: seq<Task>, clock: Clock, createdAt: string)
    requires Accepted(cmd) && KnownStatuses(tasks)
    ensures KnownStatuses(Run(cmd, tasks, clock, createdAt).0)
  {
    var n := StoreProperties.NewTask("", "", 0, None, None, createdAt);
    match cmd
    case Create(title, description, priority, due, tags) =>
      StoreProperties.MutatorsKeepKnownStatuses(tasks, 0, TaskStore.SetStatus("todo"), "",
        StoreProperties.NewTask(title, description, priority.GetOr(DefaultPriority), due, Some(SplitTags(tags)), createdAt));
    case UpdateStatus(id, newStatus) =>
      StoreProperties.MutatorsKeepKnownStatuses(tasks, id, TaskStore.SetStatus(newStatus), "", n);
    case UpdatePriority(id, newPriority) =>
      StoreProperties.MutatorsKeepKnownStatuses(tasks, id, TaskStore.SetPriority(newPriority), "", n);
    case UpdateDueDate(id, newDue) =>
      StoreProperties.MutatorsKeepKnownStatuses(tasks, id, TaskStore.SetDue(Some(newDue)), "", n);
    case AddTag(id, tag) =>
      StoreProperties.MutatorsKeepKnownStatuses(tasks, id, TaskStore.SetStatus("todo"), tag, n);
    case RemoveTag(id, tag) =>
      StoreProperties.MutatorsKeepKnownStatuses(tasks, id, TaskStore.SetStatus("todo"), tag, n);
    case _ =>
  }

  /** No command makes two records share an id. */
  lemma RunKeepsIdsDistinct(cmd: Command, tasks: seq<Task>, clock: Clock, createdAt: string)
    requires DistinctIds(tasks)
    ensures DistinctIds(Run(cmd, tasks, clock, createdAt).0)
  {
    match cmd
    case Create(title, description, priority, due, tags) =>
      var n := StoreProperties.NewTask(title, description, priority.GetOr(DefaultPriority), due, Some(SplitTags(tags)), createdAt);
      StoreProperties.MutatorsKeepIdsDistinct(tasks, 0, TaskStore.SetStatus("todo"), "", n);
    case UpdateStatus(id, newStatus) =>
      StoreProperties.UpdateKeepsIdsDistinct(tasks, id, TaskStore.SetStatus(newStatus));
    case UpdatePriority(id, newPriority) =>
      StoreProperties.UpdateKeepsIdsDistinct(tasks, id, TaskStore.SetPriority(newPriority));
    case UpdateDueDate(id, newDue) =>
      StoreProperties.UpdateKeepsIdsDistinct(tasks, id, TaskStore.SetDue(Some(newDue)));
    case AddTag(id, tag) =>
      StoreProperties.AddTagKeepsIdsDistinct(tasks, id, tag);
    case RemoveTag(id, tag) =>
      StoreProperties.RemoveTagKeepsIdsDistinct(tasks, id, tag);
    case _ =>
  }

  /** `list` with an accepted `--status` or `--priority` returns only records
      whose status, or priority, is one argparse offers. */
  lemma AcceptedListStaysInChoices(cmd: Command, tasks: seq<Task>, clock: Clock, createdAt: string)
    requires Accepted(cmd) && cmd.List?
    ensures var listed := Run(cmd, tasks, clock, createdAt).1.tasks;
      && (cmd.status.Some? ==> forall t :: t in listed ==> t.status in Statuses)
      && (cmd.priority.Some? ==> forall t :: t in listed ==> t.priority in PriorityChoices)
  {
  }

  /** `create --priority` has no `choices`: a priority that `update-priority`
      and `list --priority` refuse is stored as given. */
  lemma CreateStoresAnyPriority(tasks: seq<Task>, clock: Clock, createdAt: string, priority: int)
    ensures var cmd := Create("t", "", Some(priority), None, "");
      && Accepted(cmd)
      && Run(cmd, tasks, clock, createdAt).0[|tasks|].priority == priority
      && (priority !in PriorityChoices ==> !Accepted(UpdatePriority(0, priority)))
  {
  }

  /** `create --tags "x, x"` stores a task whose tags repeat: neither the
      splitter nor `add_task` removes duplicates. */
  lemma CreateCanStoreDuplicateTags(tasks: seq<Task>, clock: Clock, createdAt: string, t: string)
    requires IsTrimmed(t) && ',' !in t
    ensures var cmd := Create("title", "", None, None, t + [','] + ([' '] + t));
      && Accepted(cmd)
      && Run(cmd, tasks, clock, createdAt).1.created.tags == [t, t]
  {
    SplitTagsKeepsDuplicates(t);
  }
}
