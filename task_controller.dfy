/**
 * The state-changing handlers of the task controller over a store of task
 * records keyed by id: creation with its defaults, the creator's details update
 * and the executor's status change gated on dependencies. The checks each
 * handler runs before it writes are pure functions here; the store is a class
 * whose methods apply them and write the record.
 */
module TaskController {
  import opened Common
  import opened JsString
  import opened TaskModel
  import opened TaskQueries
  import opened Session

  /** The body of a create request; dependencies is None when the body's value is not an array. */
  datatype NewTaskInput = NewTaskInput(
    title: Option<string>,
    description: Option<string>,
    dependencies: Option<seq<TaskId>>,
    estimatedTime: Option<real>,
    priority: Option<string>)

  /** The body of a details update; a field the body leaves out is None. */
  datatype DetailsUpdate = DetailsUpdate(
    title: Option<string>,
    description: Option<string>,
    priority: Option<Priority>,
    estimatedTime: Option<real>)

  /** JavaScript truthiness of an optional number: present and not zero. */
  predicate TruthyNumber(n: Option<real>) {
    n.Some? && n.value != 0.0
  }

  // ---------------------------------------------------------------------------
  // Creation
  // ---------------------------------------------------------------------------

  /**
   * The document Task.create builds for a creator: a non-array dependencies value
   * becomes [], a falsy priority becomes medium, and the schema fills in the
   * rest. The schema refuses a missing or empty title and a priority outside its
   * enum.
   */
  function NewTask(id: TaskId, input: NewTaskInput, creator: UserId, now: Timestamp): (r: Result<Task, Failure>)
    ensures r.Ok? <==> Truthy(input.title) && (!Truthy(input.priority) || ParsePriority(input.priority.value).Some?)
    ensures r.Err? ==> r.error == Validation
    ensures r.Ok? ==> r.value.id == id && r.value.title == input.title.value && r.value.description == input.description
    ensures r.Ok? ==> r.value.status == Pending && r.value.executedBy.None? && r.value.completionDate.None?
    ensures r.Ok? ==> r.value.createdBy == creator && r.value.createdAt == now && r.value.updatedAt == now
    ensures r.Ok? ==> r.value.dependencies == (if input.dependencies.Some? then input.dependencies.value else [])
    ensures r.Ok? ==> r.value.dependentTasks == [] && r.value.estimatedTime == input.estimatedTime
    ensures r.Ok? && !Truthy(input.priority) ==> r.value.priority == Medium
    ensures r.Ok? && Truthy(input.priority) ==> PriorityName(r.value.priority) == input.priority.value
  {
    var deps := if input.dependencies.Some? then input.dependencies.value else [];
    var priorityText := if Truthy(input.priority) then input.priority.value else PriorityName(DefaultPriority);
    if !Truthy(input.title) then Err(Validation)
    else match ParsePriority(priorityText)
      case None => Err(Validation)
      case Some(priority) =>
        Ok(Task(id, input.title.value, input.description, DefaultStatus, creator, None, deps, [],
                None, input.estimatedTime, priority, now, now))
  }

  /** Creation checks nothing about the dependencies: a dangling id, or the new task's own id, is accepted. */
  lemma CreationAcceptsAnyDependencies(id: TaskId, input: NewTaskInput, creator: UserId, now: Timestamp)
    requires Truthy(input.title) && input.priority.None?
    requires input.dependencies == Some([id])
    ensures NewTask(id, input, creator, now).Ok?
    ensures NewTask(id, input, creator, now).value.dependencies == [id]
  {
  }

  /** A task created without dependencies is immediately on offer to every executor. */
  lemma NewTaskWithoutDependenciesIsAvailable(tasks: map<TaskId, Task>, id: TaskId, input: NewTaskInput, creator: UserId, now: Timestamp)
    requires NewTask(id, input, creator, now).Ok?
    requires input.dependencies.None? || input.dependencies == Some([])
    ensures NewTask(id, input, creator, now).value in AvailableTasks(tasks, [NewTask(id, input, creator, now).value])
  {
  }

  // ---------------------------------------------------------------------------
  // Execution
  // ---------------------------------------------------------------------------

  predicate AssignedToAnother(t: Task, actor: UserId) {
    t.executedBy.Some? && t.executedBy.value != actor
  }

  /**
   * The checks of an execution request in the order they run; the first that
   * fails decides the answer, and None means the write goes ahead.
   */
  function ExecutionGuard(tasks: map<TaskId, Task>, id: TaskId, actor: User): (g: Option<Failure>)
    ensures id !in tasks ==> g == Some(NotFound)
    ensures id in tasks && actor.role != ExecutorRole ==> g == Some(Forbidden)
    ensures g == Some(AlreadyAssigned) <==>
              id in tasks && actor.role == ExecutorRole && tasks[id].executedBy.Some? && tasks[id].executedBy.value != actor.id
    ensures (g.Some? && g.value.DependenciesIncomplete?) <==>
              id in tasks && actor.role == ExecutorRole && !AssignedToAnother(tasks[id], actor.id)
              && !AllCompleted(tasks, tasks[id].dependencies)
    ensures g.Some? && g.value.DependenciesIncomplete? ==>
              g.value.incomplete != [] && g.value.incomplete == IncompleteDependencies(tasks, tasks[id].dependencies)
    ensures g.None? <==>
              id in tasks && actor.role == ExecutorRole && !AssignedToAnother(tasks[id], actor.id)
              && AllCompleted(tasks, tasks[id].dependencies)
  {
    if id !in tasks then Some(NotFound)
    else if actor.role != ExecutorRole then Some(Forbidden)
    else if AssignedToAnother(tasks[id], actor.id) then Some(AlreadyAssigned)
    else
      var deps := tasks[id].dependencies;
      NoneIncompleteIffAllCompleted(tasks, deps);
      if |deps| > 0 && IncompleteDependencies(tasks, deps) != [] then
        Some(DependenciesIncomplete(IncompleteDependencies(tasks, deps)))
      else
        None
  }

  /**
   * The write of a successful execution: the requested status and the actor as
   * executor; entering completed stamps the completion date, any other status
   * leaves it as it was. Nothing about the current status is checked.
   */
  function ApplyExecution(t: Task, status: Status, executor: UserId, now: Timestamp): (r: Task)
    ensures r.status == status && r.executedBy == Some(executor) && r.updatedAt == now
    ensures status == Completed ==> r.completionDate == Some(now)
    ensures status != Completed ==> r.completionDate == t.completionDate
    ensures r.(status := t.status, executedBy := t.executedBy, completionDate := t.completionDate, updatedAt := t.updatedAt) == t
  {
    t.(status := status,
       executedBy := Some(executor),
       completionDate := if status == Completed then Some(now) else t.completionDate,
       updatedAt := now)
  }

  /** A request that passed the executor gate never fails the controller's own role check. */
  lemma ExecutorGateImpliesRoleCheck(tasks: map<TaskId, Task>, id: TaskId, actor: User)
    requires ExecutorGate(Some(actor))
    ensures ExecutionGuard(tasks, id, actor) != Some(Forbidden)
  {
  }

  /**
   * The executor holding a task may submit again, whatever the task's status,
   * e.g. move a completed task back to in-progress.
   */
  lemma HolderMayResubmit(tasks: map<TaskId, Task>, id: TaskId, actor: User)
    requires id in tasks && actor.role == ExecutorRole
    requires tasks[id].executedBy == Some(actor.id) && AllCompleted(tasks, tasks[id].dependencies)
    ensures ExecutionGuard(tasks, id, actor).None?
  {
  }

  /** Reopening a completed task keeps its completion date: the date does not track the status. */
  lemma CompletionDateOutlivesCompletion(t: Task, executor: UserId, done: Timestamp, later: Timestamp, status: Status)
    requires status != Completed
    ensures ApplyExecution(ApplyExecution(t, Completed, executor, done), status, executor, later).status == status
    ensures ApplyExecution(ApplyExecution(t, Completed, executor, done), status, executor, later).completionDate == Some(done)
  {
  }

  /** Every task the availability filter lists can be executed by any executor. */
  lemma AvailableTasksAreExecutable(tasks: map<TaskId, Task>, rows: seq<Task>, t: Task, actor: User)
    requires t in AvailableTasks(tasks, rows) && t.id in tasks && tasks[t.id] == t
    requires actor.role == ExecutorRole
    ensures ExecutionGuard(tasks, t.id, actor).None?
  {
  }

  /** Nothing refuses a cycle: a task that depends on itself can never be executed until it is completed. */
  lemma SelfDependencyBlocksExecution(tasks: map<TaskId, Task>, id: TaskId, actor: User)
    requires id in tasks && id in tasks[id].dependencies && tasks[id].status != Completed
    requires actor.role == ExecutorRole && !AssignedToAnother(tasks[id], actor.id)
    ensures ExecutionGuard(tasks, id, actor) == Some(DependenciesIncomplete(IncompleteDependencies(tasks, tasks[id].dependencies)))
    ensures DepSummary(id, tasks[id].status) in ExecutionGuard(tasks, id, actor).value.incomplete
  {
    var deps := tasks[id].dependencies;
    var i :| 0 <= i < |deps| && deps[i] == id;
    assert !AllCompleted(tasks, deps);
    assert Blocks(tasks, deps[i]);
    IncompleteDependenciesMembers(tasks, deps);
  }

  // ---------------------------------------------------------------------------
  // Details update
  // ---------------------------------------------------------------------------

  /** The checks of a details update in the order they run. */
  function UpdateGuard(tasks: map<TaskId, Task>, id: TaskId, actor: User): (g: Option<Failure>)
    ensures id !in tasks ==> g == Some(NotFound)
    ensures id in tasks && tasks[id].createdBy != actor.id ==> g == Some(Forbidden)
    ensures id in tasks && tasks[id].createdBy == actor.id && tasks[id].status != Pending ==> g == Some(NotPending)
    ensures g.None? <==> id in tasks && tasks[id].createdBy == actor.id && tasks[id].status == Pending
  {
    if id !in tasks then Some(NotFound)
    else if tasks[id].createdBy != actor.id then Some(Forbidden)
    else if tasks[id].status != Pending then Some(NotPending)
    else None
  }

  /** Once work has started on a task its details cannot be updated by anyone. */
  lemma StartedTasksAreFrozen(tasks: map<TaskId, Task>, id: TaskId, actor: User)
    requires id in tasks && tasks[id].status != Pending
    ensures UpdateGuard(tasks, id, actor) == Some(Forbidden) || UpdateGuard(tasks, id, actor) == Some(NotPending)
  {
  }

  /**
   * The write of a successful details update: each of the four fields takes the
   * given value when it is truthy and keeps the stored one otherwise.
   */
  function MergeDetails(t: Task, u: DetailsUpdate, now: Timestamp): (r: Task)
    ensures r.title == (if Truthy(u.title) then u.title.value else t.title)
    ensures r.description == (if Truthy(u.description) then u.description else t.description)
    ensures r.priority == (if u.priority.Some? then u.priority.value else t.priority)
    ensures r.estimatedTime == (if TruthyNumber(u.estimatedTime) then u.estimatedTime else t.estimatedTime)
    ensures r.updatedAt == now
    ensures r.(title := t.title, description := t.description, priority := t.priority,
               estimatedTime := t.estimatedTime, updatedAt := t.updatedAt) == t
  {
    t.(title := if Truthy(u.title) then u.title.value else t.title,
       description := if Truthy(u.description) then u.description else t.description,
       priority := if u.priority.Some? then u.priority.value else t.priority,
       estimatedTime := if TruthyNumber(u.estimatedTime) then u.estimatedTime else t.estimatedTime,
       updatedAt := now)
  }

  /** Applying the same update twice is the same as applying it once. */
  lemma MergeIdempotent(t: Task, u: DetailsUpdate, now: Timestamp)
    ensures MergeDetails(MergeDetails(t, u, now), u, now) == MergeDetails(t, u, now)
  {
  }

  /** An update can never clear a field: empty inputs fall back to the stored value. */
  lemma MergeCannotClear(t: Task, u: DetailsUpdate, now: Timestamp)
    ensures t.title != "" ==> MergeDetails(t, u, now).title != ""
    ensures Truthy(t.description) ==> Truthy(MergeDetails(t, u, now).description)
    ensures TruthyNumber(t.estimatedTime) ==> TruthyNumber(MergeDetails(t, u, now).estimatedTime)
  {
  }

  // ---------------------------------------------------------------------------
  // The store
  // ---------------------------------------------------------------------------

  /**
   * Records are keyed by their own id, every id is below the next one to assign,
   * every title is non-empty (the schema requires it), and order lists each
   * stored id once, in the order of creation.
   */
  ghost predicate Consistent(tasks: map<TaskId, Task>, order: seq<TaskId>, nextId: TaskId) {
    && (forall k :: k in tasks ==> tasks[k].id == k && k < nextId && tasks[k].title != "")
    && (forall k :: k in tasks <==> k in order)
    && (forall i, j :: 0 <= i < j < |order| ==> order[i] != order[j])
  }

  /** No record lists dependents: no operation ever writes dependentTasks. */
  predicate NoReverseEdges(tasks: map<TaskId, Task>) {
    forall k :: k in tasks ==> tasks[k].dependentTasks == []
  }

  class TaskStore {
    var tasks: map<TaskId, Task>
    var order: seq<TaskId>
    var nextId: TaskId

    ghost predicate Valid()
      reads this
    {
      Consistent(tasks, order, nextId)
    }

    constructor ()
      ensures Valid() && tasks == map[] && order == [] && nextId == 0
    {
      tasks, order, nextId := map[], [], 0;
    }

    /** The stored records in the order the store returns them. */
    function Rows(): (r: seq<Task>)
      reads this
      requires Valid()
      ensures |r| == |order| && forall i :: 0 <= i < |order| ==> r[i] == tasks[order[i]]
    {
      seq(|order|, i reads this requires 0 <= i < |order| && order[i] in tasks => tasks[order[i]])
    }

    /** createTask: a new record under a fresh id, or the schema's refusal with nothing stored. */
    method Create(input: NewTaskInput, actor: User, now: Timestamp) returns (r: Result<Task, Failure>)
      requires Valid()
      modifies this
      ensures Valid()
      ensures r == NewTask(old(nextId), input, actor.id, now)
      ensures r.Ok? ==> old(nextId) !in old(tasks) && tasks == old(tasks)[old(nextId) := r.value]
                        && order == old(order) + [old(nextId)]
      ensures r.Err? ==> tasks == old(tasks) && order == old(order)
      ensures NoReverseEdges(old(tasks)) ==> NoReverseEdges(tasks)
    {
      var made := NewTask(nextId, input, actor.id, now);
      if made.Err? {
        return made;
      }
      // The new document's status comes from the schema default, so the save hook does not stamp it.
      var doc := new TaskDocument(made.value, false);
      doc.PreSave(now);
      var id := nextId;
      tasks := tasks[id := doc.record];
      order := order + [id];
      nextId := nextId + 1;
      r := Ok(doc.record);
    }

    /** executeTask: the guard chain, then the status write, or no change at all. */
    method Execute(id: TaskId, actor: User, status: Status, now: Timestamp) returns (r: Result<Task, Failure>)
      requires Valid()
      modifies this
      ensures Valid() && order == old(order) && nextId == old(nextId)
      ensures ExecutionGuard(old(tasks), id, actor).Some? ==>
                r == Err(ExecutionGuard(old(tasks), id, actor).value) && tasks == old(tasks)
      ensures ExecutionGuard(old(tasks), id, actor).None? ==>
                r == Ok(ApplyExecution(old(tasks)[id], status, actor.id, now)) && tasks == old(tasks)[id := r.value]
      ensures forall k :: k in old(tasks) && AssignedToAnother(old(tasks)[k], actor.id) ==> tasks[k] == old(tasks)[k]
      ensures forall k :: k in old(tasks) ==> tasks[k].createdBy == old(tasks)[k].createdBy
      ensures NoReverseEdges(old(tasks)) ==> NoReverseEdges(tasks)
    {
      var failure := ExecutionGuard(tasks, id, actor);
      if failure.Some? {
        return Err(failure.value);
      }
      var updated := ApplyExecution(tasks[id], status, actor.id, now);
      tasks := tasks[id := updated];
      r := Ok(updated);
    }

    /** updateTask: the guard chain, then the details write, or no change at all. */
    method Update(id: TaskId, actor: User, u: DetailsUpdate, now: Timestamp) returns (r: Result<Task, Failure>)
      requires Valid()
      modifies this
      ensures Valid() && order == old(order) && nextId == old(nextId)
      ensures UpdateGuard(old(tasks), id, actor).Some? ==>
                r == Err(UpdateGuard(old(tasks), id, actor).value) && tasks == old(tasks)
      ensures UpdateGuard(old(tasks), id, actor).None? ==>
                r == Ok(MergeDetails(old(tasks)[id], u, now)) && tasks == old(tasks)[id := r.value]
      ensures forall k :: k in old(tasks) ==>
                (tasks[k].status == old(tasks)[k].status && tasks[k].executedBy == old(tasks)[k].executedBy
                 && tasks[k].createdBy == old(tasks)[k].createdBy)
      ensures NoReverseEdges(old(tasks)) ==> NoReverseEdges(tasks)
    {
      var failure := UpdateGuard(tasks, id, actor);
      if failure.Some? {
        return Err(failure.value);
      }
      var updated := MergeDetails(tasks[id], u, now);
      tasks := tasks[id := updated];
      r := Ok(updated);
    }
  }
}
