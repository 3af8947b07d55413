/**
 * The task record as the schema declares it: the status and priority enums with
 * the strings they are stored as, the required and optional fields, the
 * defaults, and the pre-save hook that stamps the completion date.
 */
module TaskModel {
  import opened Common

  /** Identifiers the store assigns (ObjectIds of tasks and of users). */
  type TaskId = nat
  type UserId = nat
  /** A point in time in milliseconds, as the clock would supply it. */
  type Timestamp = int

  datatype Status = Pending | InProgress | Completed | Blocked
  datatype Priority = Low | Medium | High

  /** The string a status is stored (and requested) as. */
  function StatusName(s: Status): string {
    match s
    case Pending => "pending"
    case InProgress => "in-progress"
    case Completed => "completed"
    case Blocked => "blocked"
  }

  /** The status a string names, if it is one of the four enum values. */
  function ParseStatus(text: string): (r: Option<Status>)
    ensures r.Some? ==> StatusName(r.value) == text
    ensures r.None? ==> text !in ["pending", "in-progress", "completed", "blocked"]
  {
    if text == "pending" then Some(Pending)
    else if text == "in-progress" then Some(InProgress)
    else if text == "completed" then Some(Completed)
    else if text == "blocked" then Some(Blocked)
    else None
  }

  lemma ParseStatusName(s: Status)
    ensures ParseStatus(StatusName(s)) == Some(s)
  {
  }

  /** The string a priority is stored as. */
  function PriorityName(p: Priority): string {
    match p
    case Low => "low"
    case Medium => "medium"
    case High => "high"
  }

  /** The priority a string names, if it is one of the three enum values. */
  function ParsePriority(text: string): (r: Option<Priority>)
    ensures r.Some? ==> PriorityName(r.value) == text
    ensures r.None? ==> text !in ["low", "medium", "high"]
  {
    if text == "low" then Some(Low)
    else if text == "medium" then Some(Medium)
    else if text == "high" then Some(High)
    else None
  }

  lemma ParsePriorityName(p: Priority)
    ensures ParsePriority(PriorityName(p)) == Some(p)
  {
  }

  /** Schema defaults for the fields a new document does not set. */
  const DefaultStatus: Status := Pending
  const DefaultPriority: Priority := Medium

  /**
   * A stored task. title and createdBy are required; description, executedBy,
   * completionDate and estimatedTime may be absent; status and priority are
   * always one of their enum values; dependencies and dependentTasks are two
   * independent lists of task ids; createdAt and updatedAt are the schema's
   * timestamps.
   */
  datatype Task = Task(
    id: TaskId,
    title: string,
    description: Option<string>,
    status: Status,
    createdBy: UserId,
    executedBy: Option<UserId>,
    dependencies: seq<TaskId>,
    dependentTasks: seq<TaskId>,
    completionDate: Option<Timestamp>,
    estimatedTime: Option<real>,
    priority: Priority,
    createdAt: Timestamp,
    updatedAt: Timestamp)

  /**
   * A document about to be saved: its field values and whether the status path
   * was marked modified since it was loaded or constructed.
   */
  class TaskDocument {
    var record: Task
    var statusModified: bool

    constructor (record: Task, statusModified: bool)
      ensures this.record == record && this.statusModified == statusModified
    {
      this.record := record;
      this.statusModified := statusModified;
    }

    /**
     * The pre-save hook: a save that modified the status to completed stamps the
     * completion date with the current time; any other save leaves it alone.
     */
    method PreSave(now: Timestamp)
      modifies this`record
      ensures statusModified && old(record).status == Completed ==> record == old(record).(completionDate := Some(now))
      ensures !(statusModified && old(record).status == Completed) ==> record == old(record)
    {
      if statusModified && record.status == Completed {
        record := record.(completionDate := Some(now));
      }
    }
  }
}
