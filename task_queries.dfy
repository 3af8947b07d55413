/**
 * The read-only side of the task controller, over a snapshot of the store:
 * dependency resolution (what populate returns), the availability filter, the
 * listings and their sort orders, the status filter, lookup by id and the
 * two-level dependency graph. The failure taxonomy of the controller is here
 * too, since both the queries and the state-changing operations report it.
 */
module TaskQueries {
  import opened Common
  import opened JsString
  import opened TaskModel

  /** A dependency that blocks execution, as reported: populating with the status field only gives id and status. */
  datatype DepSummary = DepSummary(id: TaskId, status: Status)

  datatype Failure =
    | NotFound                                          // 404: no task with that id
    | Forbidden                                         // 403: wrong role, or not the task's creator
    | AlreadyAssigned                                   // 400: another executor holds the task
    | DependenciesIncomplete(incomplete: seq<DepSummary>)  // 400: dependencies not completed
    | NotPending                                        // 400: details update after work started
    | InvalidStatus                                     // 400: status filter outside the enum
    | Validation                                        // 500: the schema refused the new document

  // ---------------------------------------------------------------------------
  // Dependency resolution
  // ---------------------------------------------------------------------------

  /**
   * Every dependency that the store still holds is completed. A dependency id
   * with no record is dropped by populate, so it does not count against the task.
   */
  predicate AllCompleted(tasks: map<TaskId, Task>, deps: seq<TaskId>) {
    forall i :: 0 <= i < |deps| && deps[i] in tasks ==> tasks[deps[i]].status == Completed
  }

  function SummaryIds(ds: seq<DepSummary>): (r: seq<TaskId>)
    ensures |r| == |ds| && forall i :: 0 <= i < |ds| ==> r[i] == ds[i].id
  {
    seq(|ds|, i requires 0 <= i < |ds| => ds[i].id)
  }

  lemma SummaryIdsCons(d: DepSummary, ds: seq<DepSummary>)
    ensures SummaryIds([d] + ds) == [d.id] + SummaryIds(ds)
  {
    var l, r := SummaryIds([d] + ds), [d.id] + SummaryIds(ds);
    assert |l| == |r|;
    forall i | 0 <= i < |l| ensures l[i] == r[i] {
      if i > 0 {
        assert ([d] + ds)[i] == ds[i - 1];
      }
    }
  }

  /** A dependency reference that populate resolves to a stored task whose status is not completed. */
  predicate Blocks(tasks: map<TaskId, Task>, k: TaskId) {
    k in tasks && tasks[k].status != Completed
  }

  /**
   * The populated dependencies whose status is not completed, each with its
   * stored status. The reported ids are Array.prototype.filter over the
   * dependency list: same order, and an id listed several times is reported as
   * often as it is listed while it blocks.
   */
  function IncompleteDependencies(tasks: map<TaskId, Task>, deps: seq<TaskId>): (r: seq<DepSummary>)
    ensures SummaryIds(r) == Filter(deps, (k: TaskId) => Blocks(tasks, k))
    ensures forall i :: 0 <= i < |r| ==> r[i].id in tasks && r[i].status == tasks[r[i].id].status
    decreases |deps|
  {
    if deps == [] then []
    else
      var keep := (k: TaskId) => Blocks(tasks, k);
      var rest := IncompleteDependencies(tasks, deps[1..]);
      if Blocks(tasks, deps[0]) then
        var r := [DepSummary(deps[0], tasks[deps[0]].status)] + rest;
        assert Filter(deps, keep) == [deps[0]] + Filter(deps[1..], keep);
        SummaryIdsCons(DepSummary(deps[0], tasks[deps[0]].status), rest);
        r
      else
        assert Filter(deps, keep) == Filter(deps[1..], keep);
        rest
  }

  /** Nothing is reported exactly when every resolved dependency is completed. */
  lemma NoneIncompleteIffAllCompleted(tasks: map<TaskId, Task>, deps: seq<TaskId>)
    ensures IncompleteDependencies(tasks, deps) == [] <==> AllCompleted(tasks, deps)
  {
    var ids := SummaryIds(IncompleteDependencies(tasks, deps));
    if !AllCompleted(tasks, deps) {
      var i :| 0 <= i < |deps| && deps[i] in tasks && tasks[deps[i]].status != Completed;
      assert Blocks(tasks, deps[i]);
      assert deps[i] in ids;
    }
    if ids != [] {
      assert Blocks(tasks, ids[0]) && ids[0] in deps;
    }
  }

  /** Every reported entry is a blocking dependency, and every blocking dependency is reported. */
  lemma IncompleteDependenciesMembers(tasks: map<TaskId, Task>, deps: seq<TaskId>)
    ensures forall d :: d in IncompleteDependencies(tasks, deps) ==>
              d.id in deps && d.id in tasks && d.status == tasks[d.id].status && d.status != Completed
    ensures forall i :: 0 <= i < |deps| && Blocks(tasks, deps[i]) ==>
              DepSummary(deps[i], tasks[deps[i]].status) in IncompleteDependencies(tasks, deps)
  {
    var r := IncompleteDependencies(tasks, deps);
    var ids := SummaryIds(r);
    forall d | d in r
      ensures d.id in deps && d.id in tasks && d.status == tasks[d.id].status && d.status != Completed
    {
      var i :| 0 <= i < |r| && r[i] == d;
      assert ids[i] == d.id;
    }
    forall i | 0 <= i < |deps| && Blocks(tasks, deps[i])
      ensures DepSummary(deps[i], tasks[deps[i]].status) in r
    {
      assert deps[i] in ids;
      var j :| 0 <= j < |ids| && ids[j] == deps[i];
      assert r[j].id == deps[i];
    }
  }

  /** Each blocking id is reported as often as it is listed, and nothing else is reported. */
  lemma IncompleteDependenciesCounts(tasks: map<TaskId, Task>, deps: seq<TaskId>, k: TaskId)
    ensures multiset(SummaryIds(IncompleteDependencies(tasks, deps)))[k]
            == if k in tasks && tasks[k].status != Completed then multiset(deps)[k] else 0
  {
    FilterCount(deps, (k: TaskId) => Blocks(tasks, k), k);
  }

  /** A dependency that no longer resolves to a stored task never blocks. */
  lemma DanglingDependenciesIgnored(tasks: map<TaskId, Task>, deps: seq<TaskId>)
    requires forall i :: 0 <= i < |deps| ==> deps[i] !in tasks
    ensures IncompleteDependencies(tasks, deps) == []
  {
    NoneIncompleteIffAllCompleted(tasks, deps);
  }

  // ---------------------------------------------------------------------------
  // Availability
  // ---------------------------------------------------------------------------

  /**
   * Tasks no executor holds, still pending, whose dependencies are all completed;
   * an empty dependency list passes. The order of the candidates is kept.
   */
  function AvailableTasks(tasks: map<TaskId, Task>, rows: seq<Task>): (r: seq<Task>)
    ensures forall t :: t in r <==> t in rows && t.executedBy.None? && t.status == Pending && AllCompleted(tasks, t.dependencies)
    ensures SubsequenceOf(r, rows)
  {
    Filter(rows, (t: Task) =>
      t.executedBy.None? && t.status == Pending &&
      (|t.dependencies| == 0 || AllCompleted(tasks, t.dependencies)))
  }

  /** A pending task that waits on one stored task becomes available exactly when that task is completed. */
  lemma WaitsForItsDependency(tasks: map<TaskId, Task>, rows: seq<Task>, y: Task, x: TaskId)
    requires y in rows && y.executedBy.None? && y.status == Pending
    requires y.dependencies == [x] && x in tasks
    ensures y in AvailableTasks(tasks, rows) <==> tasks[x].status == Completed
  {
    assert y.dependencies[0] == x;
  }

  // ---------------------------------------------------------------------------
  // Sort orders
  // ---------------------------------------------------------------------------

  /** The listings sort by creation time, newest first; the status filter sorts by priority first. */
  datatype SortOrder = NewestFirst | PriorityThenNewest

  /** The position of a priority in the order of its stored strings: "high" < "low" < "medium". */
  function PriorityRank(p: Priority): nat {
    match p
    case High => 0
    case Low => 1
    case Medium => 2
  }

  /** Sorting by priority compares the stored strings, so the rank follows their code-point order. */
  lemma PriorityRankIsStringOrder(p: Priority, q: Priority)
    ensures LexLess(PriorityName(p), PriorityName(q)) <==> PriorityRank(p) < PriorityRank(q)
  {
    if p == q {
      LexLessIrreflexive(PriorityName(p));
    } else {
      assert PriorityName(p)[0] != PriorityName(q)[0];
    }
  }

  function PrimaryKey(t: Task, o: SortOrder): nat {
    match o
    case NewestFirst => 0
    case PriorityThenNewest => PriorityRank(t.priority)
  }

  /** a may come before b in a descending sort on (primary key, createdAt). */
  predicate Precedes(a: Task, b: Task, o: SortOrder) {
    PrimaryKey(a, o) > PrimaryKey(b, o) || (PrimaryKey(a, o) == PrimaryKey(b, o) && a.createdAt >= b.createdAt)
  }

  predicate SortedBy(s: seq<Task>, o: SortOrder) {
    forall i, j :: 0 <= i < j < |s| ==> Precedes(s[i], s[j], o)
  }

  /** Putting x in front of a sorted sequence keeps it sorted when x may precede all of its elements. */
  lemma SortedCons(x: Task, s: seq<Task>, o: SortOrder)
    requires SortedBy(s, o)
    requires forall y :: y in multiset(s) ==> Precedes(x, y, o)
    ensures SortedBy([x] + s, o)
  {
    forall i, j | 0 <= i < j < |[x] + s| ensures Precedes(([x] + s)[i], ([x] + s)[j], o) {
      if i == 0 {
        assert ([x] + s)[j] == s[j - 1];
        assert s[j - 1] in multiset(s);
      } else {
        assert ([x] + s)[i] == s[i - 1] && ([x] + s)[j] == s[j - 1];
      }
    }
  }

  function Insert(t: Task, s: seq<Task>, o: SortOrder): (r: seq<Task>)
    requires SortedBy(s, o)
    ensures SortedBy(r, o)
    ensures multiset(r) == multiset(s) + multiset{t}
    decreases |s|
  {
    if s == [] then
      [t]
    else if Precedes(t, s[0], o) then
      PrecedesSorted(t, s, o);
      SortedCons(t, s, o);
      [t] + s
    else
      var rest := Insert(t, s[1..], o);
      HeadPrecedesInserted(t, s, rest, o);
      SortedCons(s[0], rest, o);
      assert s == [s[0]] + s[1..];
      [s[0]] + rest
  }

  /** Whatever may precede the head of a sorted sequence may precede all of it. */
  lemma PrecedesSorted(t: Task, s: seq<Task>, o: SortOrder)
    requires SortedBy(s, o) && s != [] && Precedes(t, s[0], o)
    ensures forall y :: y in multiset(s) ==> Precedes(t, y, o)
  {
    forall y | y in multiset(s) ensures Precedes(t, y, o) {
      assert y in s;
    }
  }

  /** The head of a sorted sequence may precede its tail with an element inserted that may not precede the head. */
  lemma HeadPrecedesInserted(t: Task, s: seq<Task>, rest: seq<Task>, o: SortOrder)
    requires SortedBy(s, o) && s != [] && !Precedes(t, s[0], o)
    requires multiset(rest) == multiset(s[1..]) + multiset{t}
    ensures forall y :: y in multiset(rest) ==> Precedes(s[0], y, o)
  {
    forall y | y in multiset(rest) ensures Precedes(s[0], y, o) {
      if y != t {
        assert y in multiset(s[1..]);
        assert y in s[1..];
      }
    }
  }

  /** The order the store returns a sorted query in (ties in any order the sort leaves them). */
  function Sort(s: seq<Task>, o: SortOrder): (r: seq<Task>)
    ensures SortedBy(r, o)
    ensures multiset(r) == multiset(s)
    decreases |s|
  {
    if s == [] then []
    else
      assert s == [s[0]] + s[1..];
      Insert(s[0], Sort(s[1..], o), o)
  }

  /**
   * In a result sorted by priority string, a high-priority task is never listed
   * before a low or medium one, and a low one never before a medium one.
   */
  lemma PriorityOrderIsNotSemantic(s: seq<Task>, i: nat, j: nat)
    requires SortedBy(s, PriorityThenNewest) && i < j < |s|
    ensures s[i].priority == High ==> s[j].priority == High
    ensures s[i].priority == Low ==> s[j].priority != Medium
  {
  }

  lemma FilterCounts(s: seq<Task>, keep: Task -> bool)
    ensures forall t :: multiset(Filter(s, keep))[t] == if keep(t) then multiset(s)[t] else 0
  {
    forall t {
      FilterCount(s, keep, t);
    }
  }

  // ---------------------------------------------------------------------------
  // Listings
  // ---------------------------------------------------------------------------

  /** Every task, newest first. */
  function AllTasks(rows: seq<Task>): (r: seq<Task>)
    ensures SortedBy(r, NewestFirst)
    ensures multiset(r) == multiset(rows)
  {
    Sort(rows, NewestFirst)
  }

  /** The tasks the user created, newest first. */
  function CreatorTasks(rows: seq<Task>, user: UserId): (r: seq<Task>)
    ensures SortedBy(r, NewestFirst)
    ensures forall t :: multiset(r)[t] == if t.createdBy == user then multiset(rows)[t] else 0
  {
    var mine := Filter(rows, (t: Task) => t.createdBy == user);
    FilterCounts(rows, (t: Task) => t.createdBy == user);
    Sort(mine, NewestFirst)
  }

  /** The tasks the user holds as executor, newest first. */
  function ExecutorTasks(rows: seq<Task>, user: UserId): (r: seq<Task>)
    ensures SortedBy(r, NewestFirst)
    ensures forall t :: multiset(r)[t] == if t.executedBy == Some(user) then multiset(rows)[t] else 0
  {
    var mine := Filter(rows, (t: Task) => t.executedBy == Some(user));
    FilterCounts(rows, (t: Task) => t.executedBy == Some(user));
    Sort(mine, NewestFirst)
  }

  /** The tasks with the named status, by priority string descending and then newest first. */
  function TasksByStatus(rows: seq<Task>, status: string): (r: Result<seq<Task>, Failure>)
    ensures r.Err? <==> status !in ["pending", "in-progress", "completed", "blocked"]
    ensures r.Err? ==> r.error == InvalidStatus
    ensures r.Ok? ==> SortedBy(r.value, PriorityThenNewest)
    ensures r.Ok? ==> forall t :: multiset(r.value)[t] == if StatusName(t.status) == status then multiset(rows)[t] else 0
  {
    match ParseStatus(status)
    case None => Err(InvalidStatus)
    case Some(s) =>
      var matching := Filter(rows, (t: Task) => t.status == s);
      FilterCounts(rows, (t: Task) => t.status == s);
      assert forall t: Task :: t.status == s <==> StatusName(t.status) == status;
      Ok(Sort(matching, PriorityThenNewest))
  }

  /** A single task by id. */
  function TaskById(tasks: map<TaskId, Task>, id: TaskId): (r: Result<Task, Failure>)
    ensures r.Ok? <==> id in tasks
    ensures r.Ok? ==> r.value == tasks[id]
    ensures r.Err? ==> r.error == NotFound
  {
    if id in tasks then Ok(tasks[id]) else Err(NotFound)
  }

  // ---------------------------------------------------------------------------
  // Dependency graph
  // ---------------------------------------------------------------------------

  datatype NodeSummary = NodeSummary(id: TaskId, title: string, status: Status)
  /** A direct dependency or dependent, with its own direct dependencies and nothing deeper. */
  datatype GraphNeighbour = GraphNeighbour(node: NodeSummary, dependencies: seq<NodeSummary>)
  datatype DependencyGraph = DependencyGraph(task: NodeSummary, dependencies: seq<GraphNeighbour>, dependentTasks: seq<GraphNeighbour>)

  /** The ids of a reference list that populate resolves: dangling ids are dropped, order is kept. */
  function Present(tasks: map<TaskId, Task>, ids: seq<TaskId>): (r: seq<TaskId>)
    ensures forall k :: k in r ==> k in tasks
    ensures forall k :: k in ids && k in tasks ==> k in r
    ensures SubsequenceOf(r, ids)
  {
    Filter(ids, (k: TaskId) => k in tasks)
  }

  /** populate keeps every occurrence of a stored id and drops every occurrence of a dangling one. */
  lemma PresentCounts(tasks: map<TaskId, Task>, ids: seq<TaskId>, k: TaskId)
    ensures multiset(Present(tasks, ids))[k] == if k in tasks then multiset(ids)[k] else 0
  {
    FilterCount(ids, (k: TaskId) => k in tasks, k);
  }

  function Summaries(tasks: map<TaskId, Task>, ids: seq<TaskId>): (r: seq<NodeSummary>)
    requires forall k :: k in ids ==> k in tasks
    ensures |r| == |ids|
    ensures forall i :: 0 <= i < |ids| ==> r[i] == NodeSummary(ids[i], tasks[ids[i]].title, tasks[ids[i]].status)
  {
    seq(|ids|, i requires 0 <= i < |ids| => NodeSummary(ids[i], tasks[ids[i]].title, tasks[ids[i]].status))
  }

  function Neighbours(tasks: map<TaskId, Task>, ids: seq<TaskId>): (r: seq<GraphNeighbour>)
    requires forall k :: k in ids ==> k in tasks
    ensures |r| == |ids|
    ensures forall i :: 0 <= i < |ids| ==>
              r[i] == GraphNeighbour(NodeSummary(ids[i], tasks[ids[i]].title, tasks[ids[i]].status),
                                     Summaries(tasks, Present(tasks, tasks[ids[i]].dependencies)))
  {
    seq(|ids|, i requires 0 <= i < |ids| =>
      GraphNeighbour(NodeSummary(ids[i], tasks[ids[i]].title, tasks[ids[i]].status),
                     Summaries(tasks, Present(tasks, tasks[ids[i]].dependencies))))
  }

  /** The task, its direct dependencies and dependents, and each of those with its own direct dependencies. */
  function GraphOf(tasks: map<TaskId, Task>, id: TaskId): (r: Result<DependencyGraph, Failure>)
    ensures r.Err? <==> id !in tasks
    ensures r.Err? ==> r.error == NotFound
    ensures r.Ok? ==> r.value.task == NodeSummary(id, tasks[id].title, tasks[id].status)
    ensures r.Ok? ==> r.value.dependencies == Neighbours(tasks, Present(tasks, tasks[id].dependencies))
    ensures r.Ok? ==> r.value.dependentTasks == Neighbours(tasks, Present(tasks, tasks[id].dependentTasks))
  {
    if id !in tasks then Err(NotFound)
    else
      var t := tasks[id];
      Ok(DependencyGraph(NodeSummary(id, t.title, t.status),
                         Neighbours(tasks, Present(tasks, t.dependencies)),
                         Neighbours(tasks, Present(tasks, t.dependentTasks))))
  }

  lemma PresentIgnoresOtherIds(tasks: map<TaskId, Task>, x: TaskId, t: Task, ids: seq<TaskId>)
    requires x !in ids
    ensures Present(tasks[x := t], ids) == Present(tasks, ids)
  {
    FilterAgrees(ids, (k: TaskId) => k in tasks[x := t], (k: TaskId) => k in tasks);
  }

  lemma NeighboursIgnoreOtherIds(tasks: map<TaskId, Task>, x: TaskId, t: Task, ids: seq<TaskId>)
    requires forall k :: k in ids ==> k in tasks
    requires x !in ids
    requires forall k :: k in ids ==> x !in tasks[k].dependencies
    ensures Neighbours(tasks[x := t], ids) == Neighbours(tasks, ids)
  {
    var tasks' := tasks[x := t];
    forall i | 0 <= i < |ids|
      ensures Neighbours(tasks', ids)[i] == Neighbours(tasks, ids)[i]
    {
      var deps := tasks[ids[i]].dependencies;
      PresentIgnoresOtherIds(tasks, x, t, deps);
      var p := Present(tasks, deps);
      assert x !in p;
      assert Summaries(tasks', p) == Summaries(tasks, p);
    }
  }

  /**
   * The graph is exactly two levels deep: replacing (or adding) any task that is
   * not the task itself, not one of its direct dependencies or dependents, and
   * not a direct dependency of one of those, leaves the graph unchanged.
   */
  lemma GraphIgnoresDeeperTasks(tasks: map<TaskId, Task>, id: TaskId, x: TaskId, t: Task)
    requires id in tasks && x != id
    requires x !in tasks[id].dependencies && x !in tasks[id].dependentTasks
    requires forall k :: k in tasks && (k in tasks[id].dependencies || k in tasks[id].dependentTasks)
               ==> x !in tasks[k].dependencies
    ensures GraphOf(tasks[x := t], id) == GraphOf(tasks, id)
  {
    var root := tasks[id];
    PresentIgnoresOtherIds(tasks, x, t, root.dependencies);
    PresentIgnoresOtherIds(tasks, x, t, root.dependentTasks);
    NeighboursIgnoreOtherIds(tasks, x, t, Present(tasks, root.dependencies));
    NeighboursIgnoreOtherIds(tasks, x, t, Present(tasks, root.dependentTasks));
  }

  /** No operation writes dependentTasks, so a task created through the controller shows no dependents. */
  lemma NoReverseEdgesNoDependents(tasks: map<TaskId, Task>, id: TaskId)
    requires id in tasks && tasks[id].dependentTasks == []
    ensures GraphOf(tasks, id).Ok? && GraphOf(tasks, id).value.dependentTasks == []
  {
  }
}
