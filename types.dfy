/** The records and enumerations shared by the task store and the views:
    users, tasks, the filter a task list is queried with, and the page
    metadata a query returns. Timestamps are milliseconds since the epoch. */
module Types {

  datatype Option<+T> = None | Some(value: T) {
    function GetOr(default: T): T {
      match this
      case Some(v) => v
      case None => default
    }
  }

  /** The only error a store operation throws: no user is signed in. Its
      message text is not part of the model. */
  datatype StoreError = Unauthenticated

  datatype Result<+T> = Ok(value: T) | Err(error: StoreError)

  datatype User = User(id: string, username: string, password: string)

  datatype TaskStatus = Todo | InProgress | Review | Done

  datatype TaskPriority = Low | Medium | High | Critical

  /** The string each status is stored as. */
  function StatusValue(s: TaskStatus): string {
    match s
    case Todo => "todo"
    case InProgress => "in_progress"
    case Review => "review"
    case Done => "done"
  }

  /** The string each priority is stored as. */
  function PriorityValue(p: TaskPriority): string {
    match p
    case Low => "low"
    case Medium => "medium"
    case High => "high"
    case Critical => "critical"
  }

  datatype Task = Task(
    id: string,
    title: string,
    description: string,
    status: TaskStatus,
    priority: TaskPriority,
    isCompleted: bool,
    isUrgent: bool,
    createdAt: int,
    updatedAt: int,
    userId: string)

  /** The client-supplied part of a task (a task without id, timestamps and
      owner); this is also what the task form edits and submits. */
  datatype TaskData = TaskData(
    title: string,
    description: string,
    status: TaskStatus,
    priority: TaskPriority,
    isCompleted: bool,
    isUrgent: bool)

  /** The client-supplied fields of a task. */
  function DataOf(t: Task): TaskData {
    TaskData(t.title, t.description, t.status, t.priority, t.isCompleted, t.isUrgent)
  }

  /** A partial update: every field a task has except id, createdAt and
      userId, each one optional. */
  datatype TaskUpdate = TaskUpdate(
    title: Option<string>,
    description: Option<string>,
    status: Option<TaskStatus>,
    priority: Option<TaskPriority>,
    isCompleted: Option<bool>,
    isUrgent: Option<bool>,
    updatedAt: Option<int>)

  /** The update that supplies every client field of `d` (how the edit form
      calls the store). */
  function UpdateOf(d: TaskData): TaskUpdate {
    TaskUpdate(Some(d.title), Some(d.description), Some(d.status), Some(d.priority),
               Some(d.isCompleted), Some(d.isUrgent), None)
  }

  /** A query descriptor; every field is optional and present fields are ANDed. */
  datatype TaskFilter = TaskFilter(
    status: Option<TaskStatus>,
    priority: Option<TaskPriority>,
    isCompleted: Option<bool>,
    isUrgent: Option<bool>,
    search: Option<string>)

  const EmptyFilter: TaskFilter := TaskFilter(None, None, None, None, None)

  datatype PaginationInfo = PaginationInfo(page: int, limit: int, total: int, totalPages: int)
}
