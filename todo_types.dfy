/** The task record and its status enumeration (src/types/todo.ts). */
module TodoTypes {
  import opened Wrappers

  /** A point in time as milliseconds since the epoch, what `Date` compares by. */
  type Time = int

  /** The three values of the `TodoStatus` union; no other status exists. */
  datatype TodoStatus = ToDo | InProgress | Completed

  /** A board column is identified by the status it shows. */
  type ColumnId = TodoStatus

  /** The string literal of each status, which is also the droppable id of its column. */
  function StatusName(s: TodoStatus): (name: string)
    ensures |name| > 0
  {
    match s
    case ToDo => "todo"
    case InProgress => "in-progress"
    case Completed => "completed"
  }

  /** Reads a droppable id back as a status: the cast `overId as TodoStatus`, made checked. */
  function ParseStatus(name: string): (r: Option<TodoStatus>)
    ensures r.Some? ==> StatusName(r.value) == name
  {
    if name == "todo" then Some(ToDo)
    else if name == "in-progress" then Some(InProgress)
    else if name == "completed" then Some(Completed)
    else None
  }

  /** A column's droppable id always reads back as that column's status. */
  lemma StatusNameRoundTrip(s: TodoStatus)
    ensures ParseStatus(StatusName(s)) == Some(s)
  {
  }

  /** The three fixed columns, left to right. */
  const Columns: seq<ColumnId> := [ToDo, InProgress, Completed]

  /** Every status has exactly one column. */
  lemma ColumnsListEveryStatusOnce(s: TodoStatus)
    ensures s in Columns
    ensures forall i, j :: 0 <= i < j < |Columns| ==> Columns[i] != Columns[j]
  {
  }

  /** A task: `id`, `title`, `status` and `createdAt` are required, the rest optional. */
  datatype Todo = Todo(
    id: string,
    title: string,
    description: Option<string>,
    status: TodoStatus,
    deadline: Option<Time>,
    assignee: Option<string>,
    createdAt: Time)

  /** `Omit<Todo, 'id' | 'createdAt' | 'status'>`: what the form submits. */
  datatype TodoFields = TodoFields(
    title: string,
    description: Option<string>,
    deadline: Option<Time>,
    assignee: Option<string>)

  /** The editable part of a task. */
  function Editable(t: Todo): (f: TodoFields)
  {
    TodoFields(t.title, t.description, t.deadline, t.assignee)
  }
}
