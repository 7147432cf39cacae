/** The decisions a task card makes from its task (src/components/todo-card.tsx). */
module TodoCard {
  import opened Wrappers
  import opened TodoTypes
  import opened TodoStore

  /** The border classes in column order: To Do blue, In Progress yellow, Completed green. */
  const ColumnBorders: seq<string> := ["border-l-blue-500", "border-l-yellow-500", "border-l-green-500"]

  /** The Tailwind class of the card's left border for each status. */
  function BorderClass(st: TodoStatus): (cls: string)
    ensures cls == ColumnBorders[Rank(st)]
  {
    if st == ToDo then "border-l-blue-500"
    else if st == InProgress then "border-l-yellow-500"
    else "border-l-green-500"
  }

  /** Each status has its own border colour: blue, yellow, green. */
  lemma BorderClassDistinguishesStatus(a: TodoStatus, b: TodoStatus)
    ensures BorderClass(a) == BorderClass(b) <==> a == b
  {
  }

  /** The variant of the deadline badge. */
  datatype BadgeVariant = Destructive | Secondary

  /** The deadline badge: shown only with a deadline, destructive when strictly before `now`. */
  function DeadlineBadge(t: Todo, now: Time): (b: Option<BadgeVariant>)
    ensures b.Some? <==> t.deadline.Some?
    ensures b == Some(Destructive) <==> t.deadline.Some? && t.deadline.value < now
  {
    match t.deadline
    case None => None
    case Some(d) => Some(if d < now then Destructive else Secondary)
  }

  /** Once overdue, a task stays overdue as the clock moves on. */
  lemma OverdueStaysOverdue(t: Todo, now: Time, later: Time)
    requires now <= later && DeadlineBadge(t, now) == Some(Destructive)
    ensures DeadlineBadge(t, later) == Some(Destructive)
  {
  }

  /** `toUpperCase` on one character, over ASCII letters. */
  function UpperChar(c: char): (u: char)
    ensures 'a' <= c <= 'z' ==> 'A' <= u <= 'Z' && u as int - 'A' as int == c as int - 'a' as int
    ensures !('a' <= c <= 'z') ==> u == c
  {
    if 'a' <= c <= 'z' then (c as int - 'a' as int + 'A' as int) as char else c
  }

  /** `toUpperCase` on a string, character by character. */
  function ToUpper(s: string): (u: string)
    ensures |u| == |s| && forall i :: 0 <= i < |s| ==> u[i] == UpperChar(s[i])
  {
    seq(|s|, i requires 0 <= i < |s| => UpperChar(s[i]))
  }

  /** The avatar's initials: `assignee.slice(0, 2).toUpperCase()`, shown only for a non-empty assignee. */
  function Initials(assignee: Option<string>): (r: Option<string>)
    ensures r.Some? <==> assignee.Some? && assignee.value != ""
    ensures r.Some? ==>
      && |r.value| == (if |assignee.value| < 2 then |assignee.value| else 2)
      && (forall i :: 0 <= i < |r.value| ==> r.value[i] == UpperChar(assignee.value[i]))
      && (forall i :: 0 <= i < |r.value| ==> !('a' <= r.value[i] <= 'z'))
  {
    match assignee
    case None => None
    case Some(a) => if a == "" then None else Some(ToUpper(if |a| < 2 then a else a[..2]))
  }

  /** Initials are already their own initials. */
  lemma InitialsIdempotent(assignee: Option<string>)
    ensures Initials(Initials(assignee)) == Initials(assignee)
  {
    if Initials(assignee).Some? {
      var r := Initials(assignee).value;
      assert Initials(Some(r)).value == r;
    }
  }

  // ---------------------------------------------------------------- buttons

  /** The card's buttons. */
  datatype CardButton = EditButton | DeleteButton | MoveLeftButton | MoveRightButton

  /** The buttons a card renders: edit and delete always, a move only away from the edge column. */
  function Buttons(t: Todo): (bs: set<CardButton>)
    ensures EditButton in bs && DeleteButton in bs
    ensures MoveLeftButton in bs <==> t.status != ToDo
    ensures MoveRightButton in bs <==> t.status != Completed
  {
    {EditButton, DeleteButton}
      + (if t.status != ToDo then {MoveLeftButton} else {})
      + (if t.status != Completed then {MoveRightButton} else {})
  }

  /** What a press of a card's button asks the board for. */
  datatype CardIntent = EditIntent(todo: Todo) | DeleteIntent(id: string) | MoveIntent(id: string, dir: Direction)

  /** The callbacks the buttons call: `onEdit(todo)`, `onDelete(todo.id)`, `onMove(todo.id, dir)`. */
  function Press(t: Todo, b: CardButton): (i: CardIntent)
    ensures i.EditIntent? <==> b == EditButton
    ensures i.EditIntent? ==> i.todo == t
    ensures !i.EditIntent? ==> i.id == t.id
    ensures i.MoveIntent? <==> b == MoveLeftButton || b == MoveRightButton
    ensures i.MoveIntent? ==> (i.dir == Left <==> b == MoveLeftButton)
  {
    match b
    case EditButton => EditIntent(t)
    case DeleteButton => DeleteIntent(t.id)
    case MoveLeftButton => MoveIntent(t.id, Left)
    case MoveRightButton => MoveIntent(t.id, Right)
  }

  /** A move button is on the card exactly when that move would change the task's status. */
  lemma MoveShownIffEffective(t: Todo, b: CardButton)
    requires b == MoveLeftButton || b == MoveRightButton
    ensures b in Buttons(t) <==> Step(t.status, Press(t, b).dir) != t.status
  {
  }

  /**
   * Pressing a move button a card shows, in a store with unique ids that holds
   * the card's task at index `k`, changes that task's status and nothing else.
   */
  lemma ShownMoveChangesOnlyItsTask(s: seq<Todo>, k: nat, b: CardButton)
    requires UniqueIds(s) && k < |s|
    requires b in Buttons(s[k]) && (b == MoveLeftButton || b == MoveRightButton)
    ensures var i := Press(s[k], b);
            var r := MoveTodo(s, i.id, i.dir);
            && r[k].status != s[k].status
            && r[k] == s[k].(status := r[k].status)
            && forall j :: 0 <= j < |s| && j != k ==> r[j] == s[j]
  {
    forall j | 0 <= j < |s| && j != k ensures s[j].id != s[k].id {
      assert Ids(s)[j] != Ids(s)[k];
    }
  }
}
