/**
 * The board component (src/components/kanban-board.tsx): its four state fields
 * and the event handlers that replace them, each one applying a store updater.
 */
module KanbanBoard {
  import opened Wrappers
  import opened TodoTypes
  import opened Reorder
  import opened TodoStore
  import TodoDialog

  /** The form's mode, which also picks the submit handler. */
  datatype DialogMode = CreateMode | EditMode

  class Board {
    var todos: seq<Todo>
    var activeId: Option<string>
    var isDialogOpen: bool
    var editingTodo: Option<Todo>

    /** The store invariant: ids are unique. */
    ghost predicate Valid()
      reads this
    {
      UniqueIds(todos)
    }

    constructor ()
      ensures Valid()
      ensures todos == [] && activeId == None && !isDialogOpen && editingTodo == None
    {
      todos, activeId, isDialogOpen, editingTodo := [], None, false, None;
    }

    method HandleDragStart(active: string)
      modifies this`activeId
      ensures activeId == Some(active)
    {
      activeId := Some(active);
    }

    method HandleDragOver(active: string, over: Option<Over>)
      requires Valid() && (over.Some? ==> OverResolves(todos, over.value))
      modifies this`todos
      ensures Valid() && todos == DragOver(old(todos), active, over)
    {
      DragOverKeepsUnique(todos, active, over);
      if over.None? {
        return;
      }
      var o := over.value;
      var overId := OverId(o);
      if active == overId {
        return;
      }
      var activeTask := Find(todos, active);
      var overTask := Find(todos, overId);
      if activeTask.None? {
        return;
      }
      var overColumn := if overTask.Some? then overTask.value.status else o.column;
      if activeTask.value.status != overColumn {
        var activeIndex := FindIndex(todos, active);
        var overIndex := FindIndex(todos, overId);
        var newItems := todos;
        newItems := newItems[activeIndex := newItems[activeIndex].(status := overColumn)];
        todos := ArrayMove(newItems, activeIndex, if overIndex >= 0 then overIndex else activeIndex);
      }
    }

    method HandleDragEnd(active: string, over: Option<Over>)
      requires Valid() && (over.Some? ==> OverResolves(todos, over.value))
      modifies this`todos, this`activeId
      ensures Valid() && activeId == None
      ensures todos == DragEnd(old(todos), active, over)
    {
      DragEndKeepsUnique(todos, active, over);
      activeId := None;
      if over.None? {
        return;
      }
      var o := over.value;
      var overId := OverId(o);
      var activeTask := Find(todos, active);
      if activeTask.None? {
        return;
      }
      var overTask := Find(todos, overId);
      var overColumn := if overTask.Some? then overTask.value.status else o.column;
      if activeTask.value.status != overColumn {
        var activeIndex := FindIndex(todos, active);
        var newItems := todos;
        newItems := newItems[activeIndex := newItems[activeIndex].(status := overColumn)];
        todos := newItems;
      } else if active != overId {
        var oldIndex := FindIndex(todos, active);
        var newIndex := FindIndex(todos, overId);
        todos := ArrayMove(todos, oldIndex, newIndex);
      }
    }

    /** `handleAddTodo`, with the random id and the clock as parameters. */
    method HandleAddTodo(data: TodoFields, freshId: string, now: Time)
      requires Valid() && freshId !in Ids(todos)
      modifies this`todos
      ensures Valid() && todos == AddTodo(old(todos), data, freshId, now)
    {
      AddKeepsUnique(todos, data, freshId, now);
      var newTodo := NewTodo(freshId, now, data);
      todos := todos + [newTodo];
    }

    method HandleEditTodo(data: TodoFields)
      requires Valid()
      modifies this`todos, this`editingTodo
      ensures Valid() && editingTodo == None
      ensures todos == if old(editingTodo).Some? then EditTodo(old(todos), old(editingTodo).value.id, data)
                       else old(todos)
    {
      if editingTodo.None? {
        return;
      }
      todos := EditTodo(todos, editingTodo.value.id, data);
      editingTodo := None;
    }

    method HandleDeleteTodo(id: string)
      requires Valid()
      modifies this`todos
      ensures Valid() && todos == DeleteTodo(old(todos), id)
    {
      DeleteKeepsUnique(todos, id);
      todos := DeleteTodo(todos, id);
    }

    method HandleMoveTodo(id: string, dir: Direction)
      requires Valid()
      modifies this`todos
      ensures Valid() && todos == MoveTodo(old(todos), id, dir)
    {
      todos := MoveTodo(todos, id, dir);
    }

    method OpenAddDialog()
      modifies this`editingTodo, this`isDialogOpen
      ensures editingTodo == None && isDialogOpen
    {
      editingTodo := None;
      isDialogOpen := true;
    }

    method OpenEditDialog(todo: Todo)
      modifies this`editingTodo, this`isDialogOpen
      ensures editingTodo == Some(todo) && isDialogOpen
    {
      editingTodo := Some(todo);
      isDialogOpen := true;
    }

    /** `onOpenChange`, which the form calls to close itself. */
    method SetDialogOpen(open: bool)
      modifies this`isDialogOpen
      ensures isDialogOpen == open
    {
      isDialogOpen := open;
    }

    /** `mode={editingTodo ? 'edit' : 'create'}`. */
    function Mode(): (m: DialogMode)
      reads this
      ensures m == EditMode <==> editingTodo.Some?
    {
      if editingTodo.Some? then EditMode else CreateMode
    }

    /**
     * `onSubmit={editingTodo ? handleEditTodo : handleAddTodo}`: an edit of the
     * task being edited exactly when there is one, otherwise an add.
     */
    method HandleDialogSubmit(data: TodoFields, freshId: string, now: Time)
      requires Valid() && (editingTodo.None? ==> freshId !in Ids(todos))
      modifies this`todos, this`editingTodo
      ensures Valid() && editingTodo == None
      ensures todos == if old(Mode()) == EditMode then EditTodo(old(todos), old(editingTodo).value.id, data)
                       else AddTodo(old(todos), data, freshId, now)
    {
      if editingTodo.Some? {
        HandleEditTodo(data);
      } else {
        HandleAddTodo(data, freshId, now);
      }
    }

    /** The list column `c` renders. */
    function ColumnTodos(c: ColumnId): (r: seq<Todo>)
      reads this
      ensures IsSubsequence(r, todos)
      ensures forall i :: 0 <= i < |r| ==> r[i].status == c
      ensures forall t :: multiset(r)[t] == if t.status == c then multiset(todos)[t] else 0
    {
      var r := Column(todos, c);
      assert forall i :: 0 <= i < |r| ==> r[i] in multiset(r);
      r
    }

    /** `activeId ? todos.find(t => t.id === activeId) : null`: the task shown in the drag overlay. */
    function ActiveTodo(): (t: Option<Todo>)
      reads this
      ensures t.Some? <==> activeId.Some? && activeId.value != "" && activeId.value in Ids(todos)
      ensures t.Some? ==> t.value in todos && t.value.id == activeId.value
      ensures t.Some? ==> t.value == todos[FindIndex(todos, activeId.value)]
    {
      if activeId.Some? && activeId.value != "" then Find(todos, activeId.value) else None
    }
  }

  /**
   * Saving the edit form without touching it leaves the store as it was, except
   * that a missing description or assignee comes back as the empty string: the
   * form reads an absent value as '' and submits '' .
   */
  lemma SaveUntouchedEditForm(s: seq<Todo>, k: nat, st: TodoDialog.FormState)
    requires UniqueIds(s) && k < |s|
    ensures var f := TodoDialog.FieldsOf(TodoDialog.Sync(st, true, Some(s[k])));
            EditTodo(s, s[k].id, f) == s <==> s[k].description.Some? && s[k].assignee.Some?
  {
    var f := TodoDialog.FieldsOf(TodoDialog.Sync(st, true, Some(s[k])));
    var r := EditTodo(s, s[k].id, f);
    if s[k].description.Some? && s[k].assignee.Some? {
      forall j | 0 <= j < |s| ensures r[j] == s[j] {
        if j != k {
          assert Ids(s)[j] != Ids(s)[k];
        }
      }
    } else {
      assert Editable(r[k]) == f;
      assert r[k] != s[k];
    }
  }

  /** Add a task, move it right, delete it: the column counts go 1-0-0, 0-1-0, 0-0-0. */
  lemma ScenarioAddMoveDelete(data: TodoFields, id: string, now: Time)
    ensures var s1 := AddTodo([], data, id, now);
            var s2 := MoveTodo(s1, id, Right);
            var s3 := DeleteTodo(s2, id);
            && |Column(s1, ToDo)| == 1 && |Column(s1, InProgress)| == 0 && |Column(s1, Completed)| == 0
            && |Column(s2, ToDo)| == 0 && |Column(s2, InProgress)| == 1 && |Column(s2, Completed)| == 0
            && |Column(s3, ToDo)| == 0 && |Column(s3, InProgress)| == 0 && |Column(s3, Completed)| == 0
  {
    var s1 := AddTodo([], data, id, now);
    var s2 := MoveTodo(s1, id, Right);
    assert s2 == [s1[0].(status := InProgress)];
    DeleteRemovesId(s2, id);
    DeleteShrinks(s2, id);
  }

  /** Add two tasks, drop the second onto the first: the To Do column reads second, first. */
  lemma ScenarioReorder(d1: TodoFields, d2: TodoFields, now: Time)
    ensures var s := AddTodo(AddTodo([], d1, "t1", now), d2, "t2", now);
            Column(DragEnd(s, "t2", Some(OverTask("t1"))), ToDo) == [s[1], s[0]]
  {
    var s := AddTodo(AddTodo([], d1, "t1", now), d2, "t2", now);
    assert FindIndex(s, "t2") == 1 && FindIndex(s, "t1") == 0;
    assert DragEnd(s, "t2", Some(OverTask("t1"))) == [s[1], s[0]];
    FilterKeepsAll([s[1], s[0]], InColumn(ToDo));
  }
}
